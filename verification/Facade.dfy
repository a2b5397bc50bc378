// The public authorisation surface: which queries and forms are passed on to
// the authorization server, and with which parameters.

module Facade {
  import opened Prelude
  import opened Text
  import opened Urls
  import opened ClientMetadata
  import opened NormalForms

  const DYNAMIC_CONCURRENCY := 32
  const MAX_VERIFIER_BYTES := 2048

  // url.Values: each name with the values given for it.
  type Values = map<string, seq<string>>

  datatype Rejection = Rejection(status: int, code: string)
  datatype Reply = Rejected(why: Rejection) | Forwarded(values: Values)

  function ValuesOf(values: Values, name: string): seq<string> {
    if name in values then values[name] else []
  }

  function SingleRequired(values: Values, name: string): Option<string> {
    var items := ValuesOf(values, name);
    if |items| != 1 || items[0] == "" then None else Some(items[0])
  }

  predicate SingleEquals(values: Values, name: string, expected: string) {
    ValuesOf(values, name) == [expected]
  }

  predicate HasMcpScopes(values: seq<string>) {
    |values| == 1 && ScopeOk(values[0])
  }

  predicate UrlSafe(c: char) {
    'A' <= c <= 'Z' || 'a' <= c <= 'z' || '0' <= c <= '9' || c == '_' || c == '-'
  }

  // The S256 challenge of section 4.3 of RFC 7636: 43 base64url characters.
  predicate IsChallenge(s: string) {
    |s| == 43 && forall c :: c in s ==> UrlSafe(c)
  }

  // The verifier of section 4.1 of RFC 7636.
  predicate IsCodeVerifier(s: string) {
    43 <= |s| <= 128 && forall c :: c in s ==> UrlSafe(c) || c == '.' || c == '~'
  }

  const INVALID_REQUEST := Rejection(400, "invalid_request")

  // ---------------------------------------------------------------- authorisation queries

  predicate ValidVerifier(values: seq<string>) {
    |values| == 1 && 0 < |values[0]| <= MAX_VERIFIER_BYTES
  }

  // None when the verifier parameters are wrong, otherwise whether this is the
  // continuation of a login or consent leg.
  function Continuation(query: Values): Option<bool> {
    if "login_verifier" in query && "consent_verifier" in query then None
    else if "login_verifier" !in query && "consent_verifier" !in query then Some(false)
    else
      var name := if "login_verifier" in query then "login_verifier" else "consent_verifier";
      if ValidVerifier(query[name]) then Some(true) else None
  }

  // The checks of handleAuthorize before any client lookup, in their order.
  function CheckAuthorize(lib: UrlLibrary, resource: string, query: Values): Result<bool, Rejection> {
    match Continuation(query)
    case None => Err(INVALID_REQUEST)
    case Some(continuation) =>
      if SingleRequired(query, "client_id") == None then Err(INVALID_REQUEST)
      else if SingleRequired(query, "redirect_uri") == None then Err(INVALID_REQUEST)
      else if !ValidRedirectUri(lib, SingleRequired(query, "redirect_uri").value) then Err(INVALID_REQUEST)
      else if !SingleEquals(query, "response_type", "code") then Err(Rejection(400, "unsupported_response_type"))
      else if !HasMcpScopes(ValuesOf(query, "scope")) then Err(Rejection(400, "invalid_scope"))
      else if !SingleEquals(query, "resource", resource) then Err(Rejection(400, "invalid_target"))
      else if ValuesOf(query, "request") != [] || ValuesOf(query, "request_uri") != [] then Err(INVALID_REQUEST)
      else if continuation && !SingleEquals(query, "audience", resource) then Err(INVALID_REQUEST)
      else if !continuation && ValuesOf(query, "audience") != [] then Err(INVALID_REQUEST)
      else
        var challenge := SingleRequired(query, "code_challenge");
        if challenge == None || !IsChallenge(challenge.value) || !SingleEquals(query, "code_challenge_method", "S256")
        then Err(INVALID_REQUEST)
        else Ok(continuation)
  }

  function ForwardedQuery(query: Values, continuation: bool, resource: string): Values {
    if continuation then query else query["audience" := [resource]]
  }

  // What every query reaching the authorization server looks like.
  ghost predicate Sound(lib: UrlLibrary, resource: string, query: Values) {
    SoundRequest(lib, resource, query) && Continuation(query).Some?
  }

  // The part of it that is not about verifiers.
  ghost predicate SoundRequest(lib: UrlLibrary, resource: string, query: Values) {
    && ValuesOf(query, "resource") == [resource]
    && ValuesOf(query, "audience") == [resource]
    && ValuesOf(query, "code_challenge_method") == ["S256"]
    && |ValuesOf(query, "code_challenge")| == 1 && IsChallenge(ValuesOf(query, "code_challenge")[0])
    && ValuesOf(query, "response_type") == ["code"]
    && |ValuesOf(query, "client_id")| == 1 && ValuesOf(query, "client_id")[0] != ""
    && |ValuesOf(query, "redirect_uri")| == 1 && ValidRedirectUri(lib, ValuesOf(query, "redirect_uri")[0])
    && |ValuesOf(query, "scope")| == 1 && ScopeOk(ValuesOf(query, "scope")[0])
    && ValuesOf(query, "request") == [] && ValuesOf(query, "request_uri") == []
  }

  // The empty string is no redirect URI, so `Sound` need not exclude it.
  lemma EmptyIsNoRedirect(lib: UrlLibrary)
    requires Lawful(lib)
    ensures !ValidRedirectUri(lib, "")
  {
  }

  lemma ForwardedIsSound(lib: UrlLibrary, resource: string, query: Values)
    requires CheckAuthorize(lib, resource, query).Ok?
    ensures Sound(lib, resource, ForwardedQuery(query, CheckAuthorize(lib, resource, query).value, resource))
  {
    var continuation := CheckAuthorize(lib, resource, query).value;
    var forwarded := ForwardedQuery(query, continuation, resource);
    forall name | name != "audience" ensures ValuesOf(forwarded, name) == ValuesOf(query, name) {
    }
    assert "login_verifier" != "audience" && "consent_verifier" != "audience";
  }

  // The first legs that are let through are exactly the queries without a
  // verifier or audience that the added audience makes sound.
  lemma FirstLegAcceptedIffSound(lib: UrlLibrary, resource: string, query: Values)
    requires Lawful(lib)
    ensures CheckAuthorize(lib, resource, query) == Ok(false) <==>
            && Continuation(query) == Some(false) && ValuesOf(query, "audience") == []
            && Sound(lib, resource, query["audience" := [resource]])
  {
    EmptyIsNoRedirect(lib);
    AudienceAlone(query, resource);
  }

  // Adding the audience changes nothing else that is looked at.
  lemma AudienceAlone(query: Values, resource: string)
    ensures var forwarded := query["audience" := [resource]];
            && Continuation(forwarded) == Continuation(query) && ValuesOf(forwarded, "audience") == [resource]
            && ValuesOf(forwarded, "resource") == ValuesOf(query, "resource")
            && ValuesOf(forwarded, "code_challenge") == ValuesOf(query, "code_challenge")
            && ValuesOf(forwarded, "code_challenge_method") == ValuesOf(query, "code_challenge_method")
            && ValuesOf(forwarded, "response_type") == ValuesOf(query, "response_type")
            && ValuesOf(forwarded, "client_id") == ValuesOf(query, "client_id")
            && ValuesOf(forwarded, "redirect_uri") == ValuesOf(query, "redirect_uri")
            && ValuesOf(forwarded, "scope") == ValuesOf(query, "scope")
            && ValuesOf(forwarded, "request") == ValuesOf(query, "request")
            && ValuesOf(forwarded, "request_uri") == ValuesOf(query, "request_uri")
  {
  }

  // The second legs that are let through are exactly the sound queries with a
  // verifier, and they are passed on as they are.
  lemma SecondLegAcceptedIffSound(lib: UrlLibrary, resource: string, query: Values)
    requires Lawful(lib)
    ensures CheckAuthorize(lib, resource, query) == Ok(true) <==>
            Sound(lib, resource, query) && Continuation(query) == Some(true)
  {
    EmptyIsNoRedirect(lib);
  }

  // Closing the loop: the authorization server sends the browser back with the
  // first leg's forwarded query and one verifier; that is always accepted.
  lemma VerifierOnForwardedQueryAccepted(lib: UrlLibrary, resource: string, query: Values, name: string, verifier: string)
    requires Lawful(lib)
    requires CheckAuthorize(lib, resource, query) == Ok(false)
    requires name in ["login_verifier", "consent_verifier"] && 0 < |verifier| <= MAX_VERIFIER_BYTES
    ensures var back := ForwardedQuery(query, false, resource)[name := [verifier]];
            CheckAuthorize(lib, resource, back) == Ok(true) && ForwardedQuery(back, true, resource) == back
  {
    ForwardedIsSound(lib, resource, query);
    var first := ForwardedQuery(query, false, resource);
    var back := first[name := [verifier]];
    forall other | other != name ensures ValuesOf(back, other) == ValuesOf(first, other) {
    }
    assert "login_verifier" !in first && "consent_verifier" !in first;
    assert Continuation(back) == Some(true);
    NamesDiffer(name);
    SecondLegAcceptedIffSound(lib, resource, back);
  }

  lemma NamesDiffer(name: string)
    requires name in ["login_verifier", "consent_verifier"]
    ensures name !in ["resource", "audience", "code_challenge_method", "code_challenge", "response_type",
                      "client_id", "redirect_uri", "scope", "request", "request_uri"]
  {
  }

  // ---------------------------------------------------------------- whole flows

  const VERIFIERS := ["login_verifier", "consent_verifier"]

  // The two queries say the same apart from the verifiers.
  ghost predicate SameRequest(a: Values, b: Values) {
    forall name :: name !in VERIFIERS ==> (name in a <==> name in b) && (name in a ==> a[name] == b[name])
  }

  // The first query of a flow and what the browser brings back, leg after leg:
  // each time the query passed on last, with any change to the verifiers.
  ghost predicate Flow(resource: string, legs: seq<Values>) {
    && legs != []
    && forall k :: 0 < k < |legs| ==> SameRequest(ForwardedQuery(legs[k - 1], k > 1, resource), legs[k])
  }

  lemma {:induction false} FlowKeepsRequest(resource: string, legs: seq<Values>, k: nat)
    requires Flow(resource, legs) && 0 < k < |legs|
    ensures SameRequest(legs[0]["audience" := [resource]], legs[k])
    decreases k
  {
    if k > 1 {
      FlowKeepsRequest(resource, legs, k - 1);
    }
  }

  // In a flow of any length that began with an accepted query, each later leg
  // carries the same request. It is accepted, and passed on as it is, exactly
  // when it has one valid verifier; with none, with both, or with a bad one it
  // is refused.
  lemma LaterLegs(lib: UrlLibrary, resource: string, legs: seq<Values>, k: nat)
    requires Lawful(lib) && Flow(resource, legs) && 0 < k < |legs|
    requires CheckAuthorize(lib, resource, legs[0]) == Ok(false)
    ensures SameRequest(legs[0]["audience" := [resource]], legs[k])
    ensures CheckAuthorize(lib, resource, legs[k]) ==
            if Continuation(legs[k]) == Some(true) then Ok(true) else Err(INVALID_REQUEST)
  {
    FlowKeepsRequest(resource, legs, k);
    ForwardedIsSound(lib, resource, legs[0]);
    SameRequestChecked(lib, resource, legs[0]["audience" := [resource]], legs[k]);
  }

  lemma SameRequestChecked(lib: UrlLibrary, resource: string, sent: Values, back: Values)
    requires Lawful(lib) && Sound(lib, resource, sent) && SameRequest(sent, back)
    ensures CheckAuthorize(lib, resource, back) ==
            if Continuation(back) == Some(true) then Ok(true) else Err(INVALID_REQUEST)
  {
    assert SoundRequest(lib, resource, back) by { SameValues(sent, back); }
    SoundRequestChecked(lib, resource, back);
  }

  lemma SoundRequestChecked(lib: UrlLibrary, resource: string, query: Values)
    requires Lawful(lib) && SoundRequest(lib, resource, query)
    ensures CheckAuthorize(lib, resource, query) ==
            if Continuation(query) == Some(true) then Ok(true) else Err(INVALID_REQUEST)
  {
    EmptyIsNoRedirect(lib);
  }

  lemma SameValues(a: Values, b: Values)
    requires SameRequest(a, b)
    ensures forall name :: name in ["resource", "audience", "code_challenge_method", "code_challenge", "response_type",
                                    "client_id", "redirect_uri", "scope", "request", "request_uri"] ==>
                             ValuesOf(a, name) == ValuesOf(b, name)
  {
    forall name | name !in VERIFIERS ensures ValuesOf(a, name) == ValuesOf(b, name) {
    }
    forall name | name in VERIFIERS
      ensures name !in ["resource", "audience", "code_challenge_method", "code_challenge", "response_type",
                        "client_id", "redirect_uri", "scope", "request", "request_uri"] {
      NamesDiffer(name);
    }
  }

  // ---------------------------------------------------------------- token forms

  function CheckToken(resource: string, form: Values): Result<Values, Rejection> {
    if !SingleEquals(form, "resource", resource) then Err(Rejection(400, "invalid_target"))
    else if ValuesOf(form, "audience") != [] then Err(INVALID_REQUEST)
    else
      var grant := SingleRequired(form, "grant_type");
      if grant == None || grant.value !in ["authorization_code", "refresh_token"]
      then Err(Rejection(400, "unsupported_grant_type"))
      else if grant == Some("authorization_code") &&
              (SingleRequired(form, "code_verifier") == None || !IsCodeVerifier(SingleRequired(form, "code_verifier").value))
      then Err(INVALID_REQUEST)
      else if grant == Some("refresh_token") && SingleRequired(form, "refresh_token") == None then Err(INVALID_REQUEST)
      else if ValuesOf(form, "scope") != [] && !HasMcpScopes(ValuesOf(form, "scope"))
      then Err(Rejection(400, "invalid_scope"))
      else Ok(form["audience" := [resource]])
  }

  // A forwarded form names the resource once as target and once as audience,
  // and is not itself acceptable again: the audience is the facade's to add.
  lemma ForwardedTokenForm(resource: string, form: Values)
    requires CheckToken(resource, form).Ok?
    ensures var sent := CheckToken(resource, form).value;
            && ValuesOf(sent, "resource") == [resource] && ValuesOf(sent, "audience") == [resource]
            && (forall name :: name != "audience" ==> ValuesOf(sent, name) == ValuesOf(form, name))
            && (ValuesOf(sent, "grant_type") == ["authorization_code"] ==>
                  |ValuesOf(sent, "code_verifier")| == 1 && IsCodeVerifier(ValuesOf(sent, "code_verifier")[0]))
            && CheckToken(resource, sent) == Err(INVALID_REQUEST)
  {
    var sent := CheckToken(resource, form).value;
    assert "resource" != "audience" && "grant_type" != "audience" && "code_verifier" != "audience";
    forall name | name != "audience" ensures ValuesOf(sent, name) == ValuesOf(form, name) {
    }
  }

  // ---------------------------------------------------------------- acceptance, parameter by parameter

  // The parameter has this one value; it has none.
  predicate GivenOnce(values: Values, name: string, value: string) {
    name in values && values[name] == [value]
  }

  predicate NotGiven(values: Values, name: string) {
    name in values ==> values[name] == []
  }

  ghost predicate McpScope(values: Values) {
    exists scope :: GivenOnce(values, "scope", scope) && AsksForMcp(scope)
  }

  // 43 to 128 of the unreserved characters.
  predicate PkceVerifier(s: string) {
    && 43 <= |s| <= 128
    && forall c :: c in s ==>
         'A' <= c <= 'Z' || 'a' <= c <= 'z' || '0' <= c <= '9' || c == '-' || c == '.' || c == '_' || c == '~'
  }

  // A code is redeemed with its verifier, or a refresh token is given.
  ghost predicate GoodGrant(form: Values) {
    || (GivenOnce(form, "grant_type", "authorization_code") &&
        exists verifier :: GivenOnce(form, "code_verifier", verifier) && PkceVerifier(verifier))
    || (GivenOnce(form, "grant_type", "refresh_token") &&
        exists token :: GivenOnce(form, "refresh_token", token) && token != "")
  }

  lemma ScopeGiven(values: Values)
    ensures HasMcpScopes(ValuesOf(values, "scope")) <==> McpScope(values)
  {
    if |ValuesOf(values, "scope")| == 1 {
      var scope := ValuesOf(values, "scope")[0];
      assert ValuesOf(values, "scope") == [scope];
      ScopeMeaning(scope);
    }
    if scope :| GivenOnce(values, "scope", scope) && AsksForMcp(scope) {
      ScopeMeaning(scope);
    }
  }

  lemma RequiredOnce(values: Values, name: string, value: string)
    ensures SingleRequired(values, name) == Some(value) <==> GivenOnce(values, name, value) && value != ""
  {
    if |ValuesOf(values, name)| == 1 {
      assert ValuesOf(values, name) == [ValuesOf(values, name)[0]];
    }
  }

  lemma GrantGiven(form: Values)
    ensures GoodGrant(form) <==>
            || (SingleRequired(form, "grant_type") == Some("authorization_code") &&
                SingleRequired(form, "code_verifier").Some? && IsCodeVerifier(SingleRequired(form, "code_verifier").value))
            || (SingleRequired(form, "grant_type") == Some("refresh_token") && SingleRequired(form, "refresh_token").Some?)
  {
    RequiredOnce(form, "grant_type", "authorization_code");
    RequiredOnce(form, "grant_type", "refresh_token");
    forall value ensures SingleRequired(form, "code_verifier") == Some(value) <==>
        GivenOnce(form, "code_verifier", value) && value != "" {
      RequiredOnce(form, "code_verifier", value);
    }
    forall value ensures SingleRequired(form, "refresh_token") == Some(value) <==>
        GivenOnce(form, "refresh_token", value) && value != "" {
      RequiredOnce(form, "refresh_token", value);
    }
  }

  // A token form is passed on exactly when it names the resource once, brings no
  // audience, redeems a code or a refresh token properly, and asks for no scope
  // or the facade's; what is passed on is the form with the audience set.
  lemma TokenFormExactly(resource: string, form: Values, sent: Values)
    ensures CheckToken(resource, form) == Ok(sent) <==>
            && GivenOnce(form, "resource", resource) && NotGiven(form, "audience")
            && GoodGrant(form) && (NotGiven(form, "scope") || McpScope(form))
            && sent == form["audience" := [resource]]
  {
    GrantGiven(form);
    ScopeGiven(form);
    assert "authorization_code" != "refresh_token";
  }

  // Which refusal a form meets: a wrong target first, a wrong scope last.
  lemma TokenRefusals(resource: string, form: Values)
    ensures CheckToken(resource, form) == Err(Rejection(400, "invalid_target")) <==> !GivenOnce(form, "resource", resource)
    ensures CheckToken(resource, form) == Err(Rejection(400, "invalid_scope")) <==>
            && GivenOnce(form, "resource", resource) && NotGiven(form, "audience") && GoodGrant(form)
            && !NotGiven(form, "scope") && !McpScope(form)
    ensures CheckToken(resource, form) == Err(Rejection(400, "unsupported_grant_type")) <==>
            && GivenOnce(form, "resource", resource) && NotGiven(form, "audience")
            && !GivenOnce(form, "grant_type", "authorization_code") && !GivenOnce(form, "grant_type", "refresh_token")
    ensures CheckToken(resource, form) == Err(Rejection(400, "invalid_request")) <==>
            && GivenOnce(form, "resource", resource)
            && (!NotGiven(form, "audience") ||
                (!GoodGrant(form) && (GivenOnce(form, "grant_type", "authorization_code") ||
                                      GivenOnce(form, "grant_type", "refresh_token"))))
  {
    GrantGiven(form);
    ScopeGiven(form);
    RequiredOnce(form, "grant_type", "authorization_code");
    RequiredOnce(form, "grant_type", "refresh_token");
    CodesDiffer();
  }

  lemma CodesDiffer()
    ensures var codes := ["invalid_target", "invalid_scope", "unsupported_grant_type", "invalid_request",
                          "unsupported_response_type"];
            forall i, j :: 0 <= i < j < |codes| ==> codes[i] != codes[j]
  {
    assert |"invalid_target"| == 14 && |"invalid_scope"| == 13 && |"unsupported_grant_type"| == 22;
    assert |"invalid_request"| == 15 && |"unsupported_response_type"| == 25;
  }

  // Exactly one of the two verifiers, with one value of 1 to 2048 characters.
  ghost predicate OneVerifier(query: Values) {
    exists name, other, verifier ::
      && ((name == "login_verifier" && other == "consent_verifier") ||
          (name == "consent_verifier" && other == "login_verifier"))
      && GivenOnce(query, name, verifier) && 1 <= |verifier| <= 2048 && other !in query
  }

  // A continuation has one verifier; a first leg has neither parameter.
  lemma ContinuationExactly(query: Values)
    ensures Continuation(query) == Some(true) <==> OneVerifier(query)
    ensures Continuation(query) == Some(false) <==> "login_verifier" !in query && "consent_verifier" !in query
  {
    var login, consent := "login_verifier", "consent_verifier";
    assert |login| != |consent|;
    forall name | name in query && ValidVerifier(query[name]) ensures GivenOnce(query, name, query[name][0]) {
    }
  }

  // The parameters every authorisation query needs, first leg or later.
  ghost predicate GoodHead(lib: UrlLibrary, query: Values) {
    && (OneVerifier(query) || ("login_verifier" !in query && "consent_verifier" !in query))
    && (exists client :: GivenOnce(query, "client_id", client) && client != "")
    && (exists uri :: GivenOnce(query, "redirect_uri", uri) && ValidRedirectUri(lib, uri))
  }

  lemma HeadGiven(lib: UrlLibrary, query: Values)
    requires Lawful(lib)
    ensures GoodHead(lib, query) <==>
            && Continuation(query).Some? && SingleRequired(query, "client_id").Some?
            && SingleRequired(query, "redirect_uri").Some?
            && ValidRedirectUri(lib, SingleRequired(query, "redirect_uri").value)
  {
    EmptyIsNoRedirect(lib);
    ContinuationExactly(query);
    forall value ensures SingleRequired(query, "client_id") == Some(value) <==>
        GivenOnce(query, "client_id", value) && value != "" {
      RequiredOnce(query, "client_id", value);
    }
    forall value ensures SingleRequired(query, "redirect_uri") == Some(value) <==>
        GivenOnce(query, "redirect_uri", value) && value != "" {
      RequiredOnce(query, "redirect_uri", value);
    }
  }

  // Which refusal a query meets: response type, scope and target are named,
  // in this order, and anything else is an invalid request.
  lemma AuthorizeRefusals(lib: UrlLibrary, resource: string, query: Values)
    requires Lawful(lib)
    ensures CheckAuthorize(lib, resource, query) == Err(Rejection(400, "unsupported_response_type")) <==>
            GoodHead(lib, query) && !GivenOnce(query, "response_type", "code")
    ensures CheckAuthorize(lib, resource, query) == Err(Rejection(400, "invalid_scope")) <==>
            GoodHead(lib, query) && GivenOnce(query, "response_type", "code") && !McpScope(query)
    ensures CheckAuthorize(lib, resource, query) == Err(Rejection(400, "invalid_target")) <==>
            && GoodHead(lib, query) && GivenOnce(query, "response_type", "code") && McpScope(query)
            && !GivenOnce(query, "resource", resource)
    ensures CheckAuthorize(lib, resource, query).Err? ==>
            && CheckAuthorize(lib, resource, query).error.status == 400
            && CheckAuthorize(lib, resource, query).error.code in
               ["unsupported_response_type", "invalid_scope", "invalid_target", "invalid_request"]
  {
    HeadGiven(lib, query);
    ScopeGiven(query);
    CodesDiffer();
  }

  // ---------------------------------------------------------------- registrations

  // The text of a registration body: not readable as JSON of the right size and
  // type, not the metadata of a client, or metadata with its field names.
  datatype RegistrationBody = Unreadable | Undecodable | Decoded(metadata: Metadata, fields: set<string>)

  // What the facade sends for a dynamic client.
  datatype Registration = Registration(
    clientName: string, redirectUris: seq<string>, grantTypes: seq<string>, responseTypes: seq<string>,
    authMethod: string, scope: string, audience: seq<string>, skipConsent: bool)

  datatype RegistrationReply =
    | Declined(why: Rejection)
    | Sent(httpMethod: string, clientId: Option<string>, record: Option<Registration>)

  const BUSY := Rejection(503, "temporarily_unavailable")
  const BAD_METADATA := Rejection(400, "invalid_client_metadata")

  predicate IsDynamicClientId(s: string) {
    1 <= |s| <= 200 && forall c :: c in s ==> UrlSafe(c) || c == '.' || c == '~'
  }

  // The errors whose text speaks of redirect_uri.
  predicate AboutRedirects(e: MetadataError) {
    e.RedirectCount? || e.BadRedirect? || e.DuplicateRedirect?
  }

  function DynamicRegistration(resource: string, m: Metadata): Registration {
    Registration(m.clientName, m.redirectUris, m.grantTypes, ["code"], "none",
                 SCOPE + " " + OFFLINE_ACCESS_SCOPE, [resource], false)
  }

  // For a new registration (updated == None) or for one that exists.
  function RegistrationFor(lib: UrlLibrary, resource: string, body: RegistrationBody, updated: Option<string>)
    : Result<Registration, Rejection>
  {
    match body
    case Unreadable => Err(BAD_METADATA)
    case Undecodable => Err(BAD_METADATA)
    case Decoded(metadata, fields) =>
      if !FieldsAreSafe(fields, updated.Some?) then Err(BAD_METADATA)
      else if updated.Some? && metadata.clientId != "" && metadata.clientId != updated.value then Err(BAD_METADATA)
      else
        match Normalized(lib, if updated.Some? then metadata.(clientId := "") else metadata, false)
        case Err(e) =>
          if updated == None && AboutRedirects(e) then Err(Rejection(400, "invalid_redirect_uri")) else Err(BAD_METADATA)
        case Ok(m) => Ok(DynamicRegistration(resource, m))
  }

  // A public client for this resource alone, with consent.
  ghost predicate PublicRecord(lib: UrlLibrary, resource: string, record: Registration) {
    && record.authMethod == "none" && record.audience == [resource] && !record.skipConsent
    && ScopeOk(record.scope) && record.responseTypes == ["code"] && ClientNameOk(record.clientName)
    && 0 < |record.redirectUris| <= MAX_REDIRECT_URIS && NoDuplicates(record.redirectUris)
    && (forall u :: u in record.redirectUris ==> ValidRedirectUri(lib, u))
    && record.grantTypes in [CODE_GRANT, REFRESH_GRANTS]
  }

  // What every registration that reaches the authorization server looks like;
  // only name, redirects and grants are the caller's.
  lemma RegistrationIsPublic(lib: UrlLibrary, resource: string, body: RegistrationBody, updated: Option<string>)
    requires RegistrationFor(lib, resource, body, updated).Ok?
    ensures body.Decoded? && FieldsAreSafe(body.fields, updated.Some?)
    ensures var record := RegistrationFor(lib, resource, body, updated).value;
            && PublicRecord(lib, resource, record)
            && record.clientName == body.metadata.clientName && record.redirectUris == body.metadata.redirectUris
  {
    var m := if updated.Some? then body.metadata.(clientId := "") else body.metadata;
    NormalizedIsCanonical(lib, m, false);
    NormalizedKeepsNames(lib, m, false);
    CanonicalIsPublic(lib, resource, Normalized(lib, m, false).value);
  }

  lemma CanonicalIsPublic(lib: UrlLibrary, resource: string, m: Metadata)
    requires Canonical(lib, m, false)
    ensures PublicRecord(lib, resource, DynamicRegistration(resource, m))
  {
    FullScopeOk();
  }

  lemma FullScopeOk()
    ensures ScopeOk(SCOPE + " " + OFFLINE_ACCESS_SCOPE)
  {
    var scope := "mcp offline_access";
    assert SCOPE + " " + OFFLINE_ACCESS_SCOPE == scope;
    assert TwoWordsAt(scope, "mcp", "offline_access", 0, 4);
    ScopeMeaning(scope);
  }

  // The caller's name, redirects and grants, and what every dynamic client gets.
  predicate RecordOf(record: Registration, resource: string, m: Metadata) {
    && record.clientName == m.clientName && record.redirectUris == m.redirectUris && record.grantTypes == m.grantTypes
    && record.responseTypes == ["code"] && record.authMethod == "none" && record.scope == "mcp offline_access"
    && record.audience == [resource] && !record.skipConsent
  }

  // The body is the metadata of a client, brings none of the fields that are the
  // server's to set, and no client id, unless an update repeats the client's own.
  ghost predicate GoodBody(body: RegistrationBody, updated: Option<string>) {
    && body.Decoded?
    && (forall field :: field in body.fields ==>
          field !in ["client_secret", "client_secret_expires_at", "registration_access_token",
                     "registration_client_uri", "metadata", "audience", "skip_consent", "skip_logout_consent",
                     "access_token_strategy", "owner"])
    && match updated
       case None => "client_id" !in body.fields
       case Some(id) => body.metadata.clientId == "" || body.metadata.clientId == id
  }

  predicate GoodRedirects(lib: UrlLibrary, uris: seq<string>) {
    1 <= |uris| <= 10 && NoDuplicates(uris) && forall u :: u in uris ==> ValidRedirectUri(lib, u)
  }

  // The client id plays no part in what is registered.
  lemma IdPlaysNoPart(lib: UrlLibrary, input: Metadata, m: Metadata)
    ensures NormalForm(lib, input, false, m) ==>
              NormalForm(lib, input.(clientId := ""), false, m.(clientId := ""))
    ensures NormalForm(lib, input.(clientId := ""), false, m) ==>
              NormalForm(lib, input, false, m.(clientId := input.clientId))
  {
  }

  // A body is registered exactly when it is good and has a normal form, and
  // what is sent on is the record of that form.
  lemma RegistrationExactly(lib: UrlLibrary, resource: string, body: RegistrationBody, updated: Option<string>,
                            record: Registration)
    ensures RegistrationFor(lib, resource, body, updated) == Ok(record) <==>
            && GoodBody(body, updated)
            && exists m :: NormalForm(lib, body.metadata, false, m) && RecordOf(record, resource, m)
  {
    if body.Decoded? && RegistrationFor(lib, resource, body, updated) == Ok(record) {
      AcceptedHasForm(lib, resource, body, updated);
    }
    if GoodBody(body, updated) {
      if m :| NormalForm(lib, body.metadata, false, m) && RecordOf(record, resource, m) {
        FormIsAccepted(lib, resource, body, updated, m);
        RecordExactly(record, resource, m);
      }
    }
  }

  lemma RecordExactly(record: Registration, resource: string, m: Metadata)
    ensures RecordOf(record, resource, m) <==> record == DynamicRegistration(resource, m)
  {
    assert SCOPE + " " + OFFLINE_ACCESS_SCOPE == "mcp offline_access";
  }

  lemma AcceptedHasForm(lib: UrlLibrary, resource: string, body: RegistrationBody, updated: Option<string>)
    requires RegistrationFor(lib, resource, body, updated).Ok?
    ensures var record := RegistrationFor(lib, resource, body, updated).value;
            GoodBody(body, updated) && exists m :: NormalForm(lib, body.metadata, false, m) && RecordOf(record, resource, m)
  {
    var input := if updated.Some? then body.metadata.(clientId := "") else body.metadata;
    var m := Normalized(lib, input, false).value;
    NormalizedExactly(lib, input, false, m);
    IdPlaysNoPart(lib, body.metadata, m);
    var form := m.(clientId := body.metadata.clientId);
    RecordExactly(DynamicRegistration(resource, form), resource, form);
  }

  lemma FormIsAccepted(lib: UrlLibrary, resource: string, body: RegistrationBody, updated: Option<string>, m: Metadata)
    requires GoodBody(body, updated) && NormalForm(lib, body.metadata, false, m)
    ensures RegistrationFor(lib, resource, body, updated) == Ok(DynamicRegistration(resource, m))
  {
    var input := if updated.Some? then body.metadata.(clientId := "") else body.metadata;
    IdPlaysNoPart(lib, body.metadata, m);
    NormalizedExactly(lib, input, false, if updated.Some? then m.(clientId := "") else m);
  }

  // A new registration is told about its redirects exactly when those are what
  // is wrong first; every other refusal is the general one.
  lemma RegistrationRefusals(lib: UrlLibrary, resource: string, body: RegistrationBody, updated: Option<string>)
    ensures RegistrationFor(lib, resource, body, updated) == Err(Rejection(400, "invalid_redirect_uri")) <==>
            && updated == None && GoodBody(body, updated)
            && GoodName(body.metadata.clientName) && !GoodRedirects(lib, body.metadata.redirectUris)
    ensures RegistrationFor(lib, resource, body, updated).Err? ==>
            RegistrationFor(lib, resource, body, updated).error in
            [Rejection(400, "invalid_redirect_uri"), Rejection(400, "invalid_client_metadata")]
  {
    assert |"invalid_redirect_uri"| != |"invalid_client_metadata"|;
    if body.Decoded? && updated == None {
      NameMeaning(body.metadata.clientName);
      RedirectErrorMeaning(lib, body.metadata.redirectUris);
      RedirectErrorsOnly(lib, body.metadata);
    }
  }

  lemma RedirectErrorsOnly(lib: UrlLibrary, m: Metadata)
    ensures Normalized(lib, m, false).Err? && AboutRedirects(Normalized(lib, m, false).error) <==>
            && ClientNameOk(m.clientName)
            && (m.redirectUris == [] || |m.redirectUris| > MAX_REDIRECT_URIS || RedirectError(lib, m.redirectUris).Some?)
  {
    RedirectErrorKind(lib, m.redirectUris);
  }

  lemma {:induction false} RedirectErrorKind(lib: UrlLibrary, uris: seq<string>)
    ensures RedirectError(lib, uris).Some? ==> AboutRedirects(RedirectError(lib, uris).value)
  {
    if uris != [] {
      RedirectErrorKind(lib, uris[..|uris| - 1]);
    }
  }

  // ---------------------------------------------------------------- the handler

  datatype SlotEvent = Acquired | Refused | Released

  // What one run of a handler can do to the slots.
  const PATHS: set<seq<SlotEvent>> := {[], [Refused], [Acquired, Released]}

  predicate TookPath(before: seq<SlotEvent>, after: seq<SlotEvent>) {
    before <= after && after[|before|..] in PATHS
  }

  lemma EachPath(before: seq<SlotEvent>)
    ensures TookPath(before, before) && TookPath(before, before + [Refused])
    ensures TookPath(before, before + [Acquired, Released])
  {
    assert before[|before|..] == [];
    assert (before + [Refused])[|before|..] == [Refused];
    assert (before + [Acquired, Released])[|before|..] == [Acquired, Released];
  }

  // One handler run at a time: `resolve` and `synchronize` stand for the
  // metadata resolver and the Hydra client manager.
  class Handler {
    const lib: UrlLibrary
    const resource: string
    const resolve: string -> Option<Metadata>
    const synchronize: Metadata -> bool
    var dynamicSlots: nat
    ghost var events: seq<SlotEvent>

    constructor (lib: UrlLibrary, resource: string, resolve: string -> Option<Metadata>, synchronize: Metadata -> bool)
      ensures dynamicSlots == 0 && events == [] && this.lib == lib && this.resource == resource
      ensures this.resolve == resolve && this.synchronize == synchronize
    {
      this.lib, this.resource, this.resolve, this.synchronize := lib, resource, resolve, synchronize;
      dynamicSlots, events := 0, [];
    }

    method BeginDynamic() returns (admitted: bool)
      modifies this
      ensures admitted == (old(dynamicSlots) < DYNAMIC_CONCURRENCY)
      ensures dynamicSlots == old(dynamicSlots) + if admitted then 1 else 0
      ensures events == old(events) + [if admitted then Acquired else Refused]
    {
      admitted := dynamicSlots < DYNAMIC_CONCURRENCY;
      if admitted {
        dynamicSlots := dynamicSlots + 1;
      }
      events := events + [if admitted then Acquired else Refused];
    }

    method EndDynamic()
      requires dynamicSlots > 0
      modifies this
      ensures dynamicSlots == old(dynamicSlots) - 1 && events == old(events) + [Released]
    {
      dynamicSlots := dynamicSlots - 1;
      events := events + [Released];
    }

    // The client is known, allows this redirect, and is in place at Hydra.
    ghost predicate ClientReady(clientId: string, redirectUri: string)
      reads this
    {
      && ValidateClientIdUrl(lib, clientId).Some?
      && resolve(clientId).Some? && redirectUri in resolve(clientId).value.redirectUris
      && synchronize(resolve(clientId).value)
    }

    method HandleAuthorize(query: Values) returns (reply: Reply)
      modifies this
      ensures dynamicSlots == old(dynamicSlots)
      ensures TookPath(old(events), events)
      ensures reply.Forwarded? ==> Sound(lib, resource, reply.values)
      ensures match CheckAuthorize(lib, resource, query)
              case Err(why) => reply == Rejected(why) && events == old(events)
              case Ok(true) => reply == Forwarded(query) && events == old(events)
              case Ok(false) =>
                var clientId, redirectUri := query["client_id"][0], query["redirect_uri"][0];
                reply == Forwarded(query["audience" := [resource]]) <==>
                  (LooksLikeUrlClientId(lib, clientId) ==>
                     ClientReady(clientId, redirectUri) && old(dynamicSlots) < DYNAMIC_CONCURRENCY)
      ensures CheckAuthorize(lib, resource, query) == Ok(false) && reply.Rejected? && events != old(events) ==>
                (reply.why.status == 503 <==> events == old(events) + [Refused])
    {
      EachPath(events);
      var checked := CheckAuthorize(lib, resource, query);
      if checked.Err? {
        return Rejected(checked.error);
      }
      ForwardedIsSound(lib, resource, query);
      var continuation := checked.value;
      var forwarded := ForwardedQuery(query, continuation, resource);
      var clientId, redirectUri := query["client_id"][0], query["redirect_uri"][0];
      if continuation || !LooksLikeUrlClientId(lib, clientId) {
        return Forwarded(forwarded);
      }
      if ValidateClientIdUrl(lib, clientId) == None {
        return Rejected(INVALID_REQUEST);
      }
      var admitted := BeginDynamic();
      if !admitted {
        return Rejected(BUSY);
      }
      assert events == old(events) + [Acquired];
      assert old(events) + [Acquired] + [Released] == old(events) + [Acquired, Released];
      var metadata := resolve(clientId);
      if metadata == None {
        reply := Rejected(Rejection(400, "invalid_client"));
      } else if redirectUri !in metadata.value.redirectUris {
        reply := Rejected(INVALID_REQUEST);
      } else if !synchronize(metadata.value) {
        reply := Rejected(Rejection(502, "temporarily_unavailable"));
      } else {
        reply := Forwarded(forwarded);
      }
      EndDynamic();
    }

    // Registration of a client of the caller's own. What decoding the body
    // gave is a parameter.
    method HandleRegister(body: RegistrationBody) returns (reply: RegistrationReply)
      modifies this
      ensures dynamicSlots == old(dynamicSlots) && TookPath(old(events), events)
      ensures reply == if old(dynamicSlots) >= DYNAMIC_CONCURRENCY then Declined(BUSY)
                       else match RegistrationFor(lib, resource, body, None)
                            case Err(why) => Declined(why)
                            case Ok(record) => Sent("POST", None, Some(record))
      ensures events == old(events) + [Refused] <==> reply == Declined(BUSY)
    {
      EachPath(events);
      var admitted := BeginDynamic();
      if !admitted {
        return Declined(BUSY);
      }
      assert old(events) + [Acquired] + [Released] == old(events) + [Acquired, Released];
      var checked := RegistrationFor(lib, resource, body, None);
      if checked.Err? {
        reply := Declined(checked.error);
      } else {
        reply := Sent("POST", None, Some(checked.value));
      }
      EndDynamic();
    }

    // Reading, replacing or deleting a registration.
    method HandleRegistrationManagement(httpMethod: string, clientId: string, body: RegistrationBody)
      returns (reply: RegistrationReply)
      modifies this
      ensures dynamicSlots == old(dynamicSlots) && TookPath(old(events), events)
      ensures reply == if old(dynamicSlots) >= DYNAMIC_CONCURRENCY then Declined(BUSY)
                       else if !IsDynamicClientId(clientId) then Declined(Rejection(400, "invalid_client"))
                       else if httpMethod != "PUT" then Sent(httpMethod, Some(clientId), None)
                       else match RegistrationFor(lib, resource, body, Some(clientId))
                            case Err(why) => Declined(why)
                            case Ok(record) => Sent("PUT", Some(clientId), Some(record))
      ensures events == old(events) + [Refused] <==> reply == Declined(BUSY)
    {
      EachPath(events);
      var admitted := BeginDynamic();
      if !admitted {
        return Declined(BUSY);
      }
      assert old(events) + [Acquired] + [Released] == old(events) + [Acquired, Released];
      if !IsDynamicClientId(clientId) {
        EndDynamic();
        return Declined(Rejection(400, "invalid_client"));
      }
      if httpMethod != "PUT" {
        EndDynamic();
        return Sent(httpMethod, Some(clientId), None);
      }
      var checked := RegistrationFor(lib, resource, body, Some(clientId));
      if checked.Err? {
        reply := Declined(checked.error);
      } else {
        reply := Sent("PUT", Some(clientId), Some(checked.value));
      }
      EndDynamic();
    }

    method HandleToken(form: Values) returns (reply: Reply)
      ensures reply == match CheckToken(resource, form)
                       case Err(why) => Rejected(why)
                       case Ok(sent) => Forwarded(sent)
      ensures reply.Forwarded? ==> ValuesOf(reply.values, "resource") == [resource] == ValuesOf(reply.values, "audience")
    {
      var checked := CheckToken(resource, form);
      if checked.Err? {
        return Rejected(checked.error);
      }
      ForwardedTokenForm(resource, form);
      return Forwarded(checked.value);
    }
  }

  // ---------------------------------------------------------------- concurrent handlers

  // What handler h did so far.
  function Projection(trace: seq<(nat, SlotEvent)>, h: nat): seq<SlotEvent> {
    if trace == [] then []
    else
      var (who, event) := trace[|trace| - 1];
      Projection(trace[..|trace| - 1], h) + if who == h then [event] else []
  }

  // The slots in use: one more for each acquisition, one less for each release.
  function Taken(trace: seq<(nat, SlotEvent)>): int {
    if trace == [] then 0
    else
      var event := trace[|trace| - 1].1;
      Taken(trace[..|trace| - 1]) + if event.Acquired? then 1 else if event.Released? then -1 else 0
  }

  // Handlers that run at once, in any interleaving: each one is somewhere on a
  // path of its own, and the channel has room exactly below 32.
  ghost predicate Interleaving(trace: seq<(nat, SlotEvent)>) {
    && (forall h: nat :: OnPath(Projection(trace, h)))
    && (forall k :: 0 <= k < |trace| ==> ChannelAllows(Taken(trace[..k]), trace[k].1))
  }

  predicate OnPath(events: seq<SlotEvent>) {
    exists path :: path in PATHS && events <= path
  }

  predicate ChannelAllows(taken: int, event: SlotEvent) {
    (event.Acquired? ==> taken < DYNAMIC_CONCURRENCY) && (event.Refused? ==> taken >= DYNAMIC_CONCURRENCY)
  }

  // The handlers among the first n that were admitted and have not left.
  function Inside(trace: seq<(nat, SlotEvent)>, n: nat): set<nat> {
    set h: nat | h < n && Projection(trace, h) == [Acquired]
  }

  ghost predicate Numbered(trace: seq<(nat, SlotEvent)>, n: nat) {
    forall k :: 0 <= k < |trace| ==> trace[k].0 < n
  }

  lemma PathsUnfolded(events: seq<SlotEvent>)
    ensures OnPath(events) <==> events in {[], [Refused], [Acquired], [Acquired, Released]}
  {
    if events in {[], [Refused], [Acquired], [Acquired, Released]} {
      var path := if events == [Acquired] then [Acquired, Released] else events;
      assert path in PATHS && events <= path;
    }
    if path :| path in PATHS && events <= path {
      assert |path| <= 2 && events == path[..|events|];
      assert |events| == 1 ==> events == [path[0]];
      assert |events| == 2 ==> events == path;
    }
  }

  lemma FrontInterleaving(trace: seq<(nat, SlotEvent)>, n: nat)
    requires trace != [] && Interleaving(trace) && Numbered(trace, n)
    ensures Interleaving(trace[..|trace| - 1]) && Numbered(trace[..|trace| - 1], n)
  {
    var front := trace[..|trace| - 1];
    forall h: nat ensures OnPath(Projection(front, h)) {
      assert OnPath(Projection(trace, h));
      var path :| path in PATHS && Projection(trace, h) <= path;
      assert Projection(front, h) <= path;
    }
    assert forall k :: 0 <= k < |front| ==> front[..k] == trace[..k];
  }

  lemma {:induction false} PrefixInterleaving(trace: seq<(nat, SlotEvent)>, n: nat, k: nat)
    requires Interleaving(trace) && Numbered(trace, n) && k <= |trace|
    ensures Interleaving(trace[..k]) && Numbered(trace[..k], n)
    decreases |trace|
  {
    if k == |trace| {
      assert trace[..k] == trace;
    } else {
      FrontInterleaving(trace, n);
      PrefixInterleaving(trace[..|trace| - 1], n, k);
      assert trace[..|trace| - 1][..k] == trace[..k];
    }
  }

  lemma {:induction false} TakenIsInside(trace: seq<(nat, SlotEvent)>, n: nat)
    requires Interleaving(trace) && Numbered(trace, n)
    ensures Taken(trace) == |Inside(trace, n)| <= DYNAMIC_CONCURRENCY
    decreases |trace|
  {
    if trace == [] {
      assert Inside(trace, n) == {};
    } else {
      var front, event := trace[..|trace| - 1], trace[|trace| - 1].1;
      FrontInterleaving(trace, n);
      TakenIsInside(front, n);
      InsideAfter(trace, n);
      assert ChannelAllows(Taken(front), event);
    }
  }

  // In every interleaving the slots in use are those of the handlers inside, of
  // which there are never more than 32. Whoever gives a slot back has one to
  // give, and whoever is refused meets 32 others inside.
  lemma SlotsBoundHandlers(trace: seq<(nat, SlotEvent)>, n: nat)
    requires Interleaving(trace) && Numbered(trace, n)
    ensures Taken(trace) == |Inside(trace, n)| <= 32
    ensures forall k :: 0 <= k < |trace| && trace[k].1.Released? ==>
                          trace[k].0 in Inside(trace[..k], n) && Taken(trace[..k]) > 0
    ensures forall k :: 0 <= k < |trace| && trace[k].1.Refused? ==> |Inside(trace[..k], n)| == 32
  {
    TakenIsInside(trace, n);
    forall k | 0 <= k < |trace|
      ensures trace[k].1.Released? ==> trace[k].0 in Inside(trace[..k], n) && Taken(trace[..k]) > 0
      ensures trace[k].1.Refused? ==> |Inside(trace[..k], n)| == DYNAMIC_CONCURRENCY {
      EventMeets(trace, n, k);
    }
  }

  lemma EventMeets(trace: seq<(nat, SlotEvent)>, n: nat, k: nat)
    requires Interleaving(trace) && Numbered(trace, n) && k < |trace|
    ensures trace[k].1.Released? ==> trace[k].0 in Inside(trace[..k], n) && Taken(trace[..k]) > 0
    ensures trace[k].1.Refused? ==> |Inside(trace[..k], n)| == DYNAMIC_CONCURRENCY
  {
    var now := trace[..k + 1];
    assert now[..k] == trace[..k];
    PrefixInterleaving(trace, n, k + 1);
    PrefixInterleaving(trace, n, k);
    TakenIsInside(trace[..k], n);
    InsideAfter(now, n);
    assert ChannelAllows(Taken(trace[..k]), trace[k].1);
  }

  lemma InsideAfter(trace: seq<(nat, SlotEvent)>, n: nat)
    requires trace != [] && Interleaving(trace) && Numbered(trace, n)
    ensures var front, h, event := trace[..|trace| - 1], trace[|trace| - 1].0, trace[|trace| - 1].1;
            match event
            case Acquired => h !in Inside(front, n) && Inside(trace, n) == Inside(front, n) + {h}
            case Released => h in Inside(front, n) && Inside(trace, n) == Inside(front, n) - {h}
            case Refused => Inside(trace, n) == Inside(front, n)
  {
    var front, h, event := trace[..|trace| - 1], trace[|trace| - 1].0, trace[|trace| - 1].1;
    LastEvent(trace);
    assert h < n;
    forall g: nat | g != h ensures g in Inside(trace, n) <==> g in Inside(front, n) {
    }
  }

  // The handler that moved last was at the start of its path, or inside.
  lemma LastEvent(trace: seq<(nat, SlotEvent)>)
    requires trace != [] && Interleaving(trace)
    ensures var front, h, event := trace[..|trace| - 1], trace[|trace| - 1].0, trace[|trace| - 1].1;
            && (Projection(front, h) == [Acquired] <==> event.Released?)
            && (Projection(trace, h) == [Acquired] <==> event.Acquired?)
  {
    var front, h, event := trace[..|trace| - 1], trace[|trace| - 1].0, trace[|trace| - 1].1;
    var before, now := Projection(front, h), Projection(trace, h);
    assert now == before + [event];
    assert OnPath(now);
    PathsUnfolded(now);
    FirstEvent(before, event);
    assert event.Acquired? ==> now == [Acquired] by { assert [] + [event] == [event]; }
    assert now[|before|] == event;
  }

  lemma FirstEvent(before: seq<SlotEvent>, event: SlotEvent)
    requires before + [event] in {[], [Refused], [Acquired], [Acquired, Released]}
    ensures before == if event.Released? then [Acquired] else []
  {
    var all := before + [event];
    assert all[|before|] == event;
    assert before == all[..|before|];
  }
}
