// The names a deployment chooses for its authentication boundary, and which of
// them are accepted.

module AuthBoundary {
  import opened Prelude
  import opened Text
  import opened Renderer

  datatype BoundaryNames = BoundaryNames(authHeader: string, internalHeader: string, sessionCookie: string)

  datatype NamesError =
    | Untrimmed(name: string)
    | NotAToken(name: string)
    | SameNames
    | Reserved(name: string)

  // The token characters of section 5.6.2 of RFC 9110.
  predicate IsTokenChar(c: char) {
    || 'A' <= c <= 'Z' || 'a' <= c <= 'z' || '0' <= c <= '9'
    || c in {'!', '#', '$', '%', '&', '\'', '*', '+', '-', '.', '^', '_', '`', '|', '~'}
  }

  predicate IsToken(s: string) {
    s != "" && forall c :: c in s ==> IsTokenChar(c)
  }

  const RESERVED := ["Authorization", "Cookie", "X-Session-Id", "Proxy-Authorization", "Proxy-Authenticate", "Host",
                     "Content-Length", "Connection", "Transfer-Encoding", "Upgrade", "TE", "Trailer"]

  // strings.EqualFold between tokens, which are ASCII.
  predicate EqualFold(a: string, b: string) {
    ToLower(a) == ToLower(b)
  }

  predicate IsReserved(s: string) {
    exists r :: r in RESERVED && EqualFold(s, r)
  }

  function TokenError(name: string): Option<NamesError> {
    if name == "" || TrimSpace(name) != name then Some(Untrimmed(name))
    else if !IsToken(name) then Some(NotAToken(name))
    else None
  }

  function NewNames(authHeader: string, internalHeader: string, sessionCookie: string): Result<BoundaryNames, NamesError> {
    if TokenError(authHeader).Some? then Err(TokenError(authHeader).value)
    else if TokenError(internalHeader).Some? then Err(TokenError(internalHeader).value)
    else if TokenError(sessionCookie).Some? then Err(TokenError(sessionCookie).value)
    else if EqualFold(authHeader, internalHeader) then Err(SameNames)
    else if IsReserved(authHeader) then Err(Reserved(authHeader))
    else if IsReserved(internalHeader) then Err(Reserved(internalHeader))
    else Ok(BoundaryNames(authHeader, internalHeader, sessionCookie))
  }

  // A token has no space to trim.
  lemma TokenTrimmed(name: string)
    requires IsToken(name)
    ensures TokenError(name) == None
  {
    assert IsTokenChar(name[0]) && IsTokenChar(name[|name| - 1]) by {
      assert name[0] in name && name[|name| - 1] in name;
    }
    assert TrimLeft(name) == name;
    assert TrimRight(name) == name;
  }

  // Names are accepted exactly when all three are tokens and the two header
  // names differ by more than case and are not reserved.
  lemma AcceptedNames(authHeader: string, internalHeader: string, sessionCookie: string)
    ensures NewNames(authHeader, internalHeader, sessionCookie).Ok? <==>
            && IsToken(authHeader) && IsToken(internalHeader) && IsToken(sessionCookie)
            && !EqualFold(authHeader, internalHeader) && !IsReserved(authHeader) && !IsReserved(internalHeader)
  {
    forall name | IsToken(name) ensures TokenError(name) == None {
      TokenTrimmed(name);
    }
  }

  // Character by character the same, but for the case of letters.
  predicate SameLetters(a: string, b: string) {
    && |a| == |b|
    && forall i :: 0 <= i < |a| ==>
         || a[i] == b[i]
         || ('a' <= a[i] <= 'z' && b[i] as int == a[i] as int - 32)
         || ('a' <= b[i] <= 'z' && a[i] as int == b[i] as int - 32)
  }

  lemma FoldMeaning(a: string, b: string)
    ensures EqualFold(a, b) <==> SameLetters(a, b)
  {
    assert |ToLower(a)| == |a| && |ToLower(b)| == |b|;
    if EqualFold(a, b) {
      forall i | 0 <= i < |a| ensures LowerChar(a[i]) == LowerChar(b[i]) {
        assert ToLower(a)[i] == ToLower(b)[i];
      }
    }
    if SameLetters(a, b) {
      forall i | 0 <= i < |a| ensures ToLower(a)[i] == ToLower(b)[i] {
      }
    }
  }

  // A name that carries credentials or frames the message.
  ghost predicate CredentialOrFraming(name: string) {
    || SameLetters(name, "Authorization") || SameLetters(name, "Cookie") || SameLetters(name, "X-Session-Id")
    || SameLetters(name, "Proxy-Authorization") || SameLetters(name, "Proxy-Authenticate")
    || SameLetters(name, "Host") || SameLetters(name, "Content-Length") || SameLetters(name, "Connection")
    || SameLetters(name, "Transfer-Encoding") || SameLetters(name, "Upgrade") || SameLetters(name, "TE")
    || SameLetters(name, "Trailer")
  }

  lemma TwelveNames(s: string, a: string, b: string, c: string, d: string, e: string, f: string,
                    g: string, h: string, i: string, j: string, k: string, l: string)
    ensures (exists r :: r in [a, b, c, d, e, f, g, h, i, j, k, l] && EqualFold(s, r)) <==>
            || SameLetters(s, a) || SameLetters(s, b) || SameLetters(s, c) || SameLetters(s, d) || SameLetters(s, e)
            || SameLetters(s, f) || SameLetters(s, g) || SameLetters(s, h) || SameLetters(s, i) || SameLetters(s, j)
            || SameLetters(s, k) || SameLetters(s, l)
  {
    forall r ensures EqualFold(s, r) <==> SameLetters(s, r) {
      FoldMeaning(s, r);
    }
  }

  lemma ReservedExactly(name: string)
    ensures IsReserved(name) <==> CredentialOrFraming(name)
  {
    TwelveNames(name, "Authorization", "Cookie", "X-Session-Id", "Proxy-Authorization", "Proxy-Authenticate", "Host",
                "Content-Length", "Connection", "Transfer-Encoding", "Upgrade", "TE", "Trailer");
  }

  // The names that come out are the names that went in, each in its place.
  lemma NamesExactly(authHeader: string, internalHeader: string, sessionCookie: string, names: BoundaryNames)
    ensures NewNames(authHeader, internalHeader, sessionCookie) == Ok(names) <==>
            && names.authHeader == authHeader && names.internalHeader == internalHeader
            && names.sessionCookie == sessionCookie
            && IsToken(authHeader) && IsToken(internalHeader) && IsToken(sessionCookie)
            && !SameLetters(authHeader, internalHeader)
            && !CredentialOrFraming(authHeader) && !CredentialOrFraming(internalHeader)
  {
    AcceptedNames(authHeader, internalHeader, sessionCookie);
    FoldMeaning(authHeader, internalHeader);
    ReservedExactly(authHeader);
    ReservedExactly(internalHeader);
  }

  lemma PlaceholderIsFree()
    ensures IsToken(AUTH_HEADER) && !IsReserved(AUTH_HEADER)
  {
    forall r | r in RESERVED ensures !EqualFold(AUTH_HEADER, r) {
      assert ToLower(AUTH_HEADER)[0] == '_';
      assert r != "" && r[0] != '_' && LowerChar(r[0]) != '_';
    }
  }

  // The placeholder of one header name is accepted as the other name.
  lemma PlaceholderAccepted(authHeader: string, internalHeader: string, sessionCookie: string)
    requires NewNames(authHeader, internalHeader, sessionCookie).Ok? && !EqualFold(authHeader, AUTH_HEADER)
    ensures NewNames(authHeader, AUTH_HEADER, sessionCookie).Ok?
  {
    AcceptedNames(authHeader, internalHeader, sessionCookie);
    AcceptedNames(authHeader, AUTH_HEADER, sessionCookie);
    PlaceholderIsFree();
  }
}
