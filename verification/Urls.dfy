// URL validation. Parsing itself belongs to the URL library; here a parser is
// an unknown function of the text, and the validators are the branches the
// services take on what it returns.

module Urls {
  import opened Prelude
  import opened Text

  datatype Url = Url(
    scheme: string, host: string, hostname: string, port: string, hasUser: bool,
    path: string, rawQuery: string, fragment: string,
    // each path segment after percent-decoding, None when that fails
    segments: seq<Option<string>>)

  // requestUri stands for url.ParseRequestURI, parse for url.Parse and
  // loopbackIp for "net.ParseIP succeeds and the address is a loopback one".
  datatype UrlLibrary = UrlLibrary(
    requestUri: string -> Option<Url>,
    parse: string -> Option<Url>,
    loopbackIp: string -> bool)

  // What the facade relies on: no URL is empty, and a fragment-free absolute
  // request URI parses to the same URL by the general parser.
  ghost predicate Lawful(lib: UrlLibrary) {
    && lib.requestUri("") == None
    && forall raw :: '#' !in raw && lib.requestUri(raw).Some? && lib.requestUri(raw).value.scheme != "" ==>
         lib.parse(raw) == lib.requestUri(raw)
  }

  const MAX_OAUTH_URI_BYTES := 2048

  predicate IsDotSegment(segment: Option<string>) {
    segment == None || segment == Some(".") || segment == Some("..")
  }

  function ValidateClientIdUrl(lib: UrlLibrary, raw: string): Option<Url> {
    if |raw| > MAX_OAUTH_URI_BYTES || '#' in raw then None
    else match lib.requestUri(raw)
      case None => None
      case Some(u) =>
        if u.scheme != "https" || u.host == "" then None
        else if u.hasUser || u.rawQuery != "" || u.fragment != "" then None
        else if u.path == "" || u.path == "/" then None
        else if exists i :: 0 <= i < |u.segments| && IsDotSegment(u.segments[i]) then None
        else Some(u)
  }

  predicate LooksLikeUrlClientId(lib: UrlLibrary, clientId: string) {
    match lib.parse(clientId)
    case None => false
    case Some(u) => u.scheme != "" && ToLower(u.scheme) in ["http", "https"]
  }

  predicate ValidRedirectUri(lib: UrlLibrary, raw: string) {
    && |raw| <= MAX_OAUTH_URI_BYTES
    && '#' !in raw
    && match lib.requestUri(raw)
       case None => false
       case Some(u) =>
         && u.scheme != "" && u.host != ""
         && !u.hasUser && u.fragment == ""
         && (u.scheme == "https"
             || (u.scheme == "http"
                 && (ToLower(u.hostname) == "localhost" || lib.loopbackIp(ToLower(u.hostname)))
                 && u.port != ""))
  }

  predicate ValidJwksUri(lib: UrlLibrary, raw: string) {
    && |raw| <= MAX_OAUTH_URI_BYTES
    && match lib.requestUri(raw)
       case None => false
       case Some(u) => u.scheme == "https" && u.host != "" && !u.hasUser && u.fragment == ""
  }

  // A validated client id is non-empty, and the marker test of the Hydra
  // client manager accepts it.
  lemma ValidClientIdIsUrlClientId(lib: UrlLibrary, raw: string)
    requires Lawful(lib) && ValidateClientIdUrl(lib, raw).Some?
    ensures raw != "" && LooksLikeUrlClientId(lib, raw)
  {
    assert lib.parse(raw) == lib.requestUri(raw);
    assert ToLower("https") == "https";
  }
}
