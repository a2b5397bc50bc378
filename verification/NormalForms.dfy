// Which client metadata is admitted and what becomes of it, field by field and
// without the branches of the normalisation.

module NormalForms {
  import opened Prelude
  import opened Text
  import opened Urls
  import opened ClientMetadata

  // ---------------------------------------------------------------- scope texts

  // White space, the word from `i`, white space.
  predicate OneWordAt(scope: string, word: string, i: int) {
    && 0 <= i <= |scope| - |word| && AllSpace(scope[..i]) && scope[i..i + |word|] == word
    && AllSpace(scope[i + |word|..])
  }

  // The word from `i`, then after some white space the other one from `j`.
  predicate TwoWordsAt(scope: string, first: string, second: string, i: int, j: int) {
    && 0 <= i && i + |first| < j <= |scope| - |second|
    && AllSpace(scope[..i]) && scope[i..i + |first|] == first
    && AllSpace(scope[i + |first|..j]) && scope[j..j + |second|] == second
    && AllSpace(scope[j + |second|..])
  }

  // The scope is mcp, with or without offline_access, in either order.
  ghost predicate AsksForMcp(scope: string) {
    || (exists i :: OneWordAt(scope, "mcp", i))
    || (exists i, j :: TwoWordsAt(scope, "mcp", "offline_access", i, j))
    || (exists i, j :: TwoWordsAt(scope, "offline_access", "mcp", i, j))
  }

  predicate IsWord(w: string) {
    w != "" && forall c :: c in w ==> !IsSpace(c)
  }

  lemma {:induction false} FieldsSkip(s: string, n: nat)
    requires n <= |s| && AllSpace(s[..n])
    ensures Fields(s) == Fields(s[n..])
  {
    if n == 0 {
      assert s[0..] == s;
    } else {
      assert s[0] == s[..n][0] && s[1..][..n - 1] == s[..n][1..] && s[1..][n - 1..] == s[n..];
      FieldsSkip(s[1..], n - 1);
    }
  }

  lemma {:induction false} WordEnds(s: string, n: nat)
    requires n <= |s| && (forall k :: 0 <= k < n ==> !IsSpace(s[k])) && (n == |s| || IsSpace(s[n]))
    ensures WordLength(s) == n
  {
    if n > 0 {
      WordEnds(s[1..], n - 1);
    }
  }

  lemma {:induction false} WordMeaning(s: string)
    ensures forall k :: 0 <= k < WordLength(s) ==> !IsSpace(s[k])
    ensures WordLength(s) == |s| || IsSpace(s[WordLength(s)])
  {
    if s != "" && !IsSpace(s[0]) {
      WordMeaning(s[1..]);
      assert forall k :: 1 <= k < |s| ==> s[k] == s[1..][k - 1];
    }
  }

  lemma FirstWord(t: string, n: nat)
    requires 0 < n <= |t| && (forall k :: 0 <= k < n ==> !IsSpace(t[k])) && (n == |t| || IsSpace(t[n]))
    ensures Fields(t) != [] && Fields(t)[0] == t[..n] && Fields(t)[1..] == Fields(t[n..])
  {
    WordEnds(t, n);
  }

  // A word between white space, or white space and an end, is the first field.
  lemma FieldAt(s: string, i: nat, j: nat)
    requires i < j <= |s| && AllSpace(s[..i]) && IsWord(s[i..j]) && (j == |s| || IsSpace(s[j]))
    ensures Fields(s) != [] && Fields(s)[0] == s[i..j] && Fields(s)[1..] == Fields(s[j..])
  {
    FieldsSkip(s, i);
    Shifted(s, i, j);
    FirstWord(s[i..], j - i);
  }

  lemma Shifted(s: string, i: nat, j: nat)
    requires i <= j <= |s|
    ensures s[i..][..j - i] == s[i..j] && s[i..][j - i..] == s[j..] && (j < |s| ==> s[i..][j - i] == s[j])
    ensures IsWord(s[i..j]) ==> forall k :: 0 <= k < j - i ==> !IsSpace(s[i..][k])
  {
    forall k | 0 <= k < j - i && IsWord(s[i..j]) ensures !IsSpace(s[i..][k]) {
      assert s[i..][k] == s[i..j][k] && s[i..j][k] in s[i..j];
    }
  }

  lemma FirstField(s: string) returns (i: nat, j: nat)
    ensures i <= j <= |s| && AllSpace(s[..i]) && (j == |s| || IsSpace(s[j]))
    ensures if Fields(s) == [] then i == j == |s|
            else IsWord(s[i..j]) && Fields(s)[0] == s[i..j] && Fields(s)[1..] == Fields(s[j..])
  {
    i := TrimLeftCuts(s);
    FieldsSkip(s, i);
    var t := s[i..];
    WordMeaning(t);
    j := i + WordLength(t);
    assert j < |s| ==> t[j - i] == s[j];
    assert forall k :: i <= k < j ==> s[k] == t[k - i];
    if i < |s| {
      FieldAt(s, i, j);
    }
  }

  lemma NoFields(s: string)
    ensures Fields(s) == [] <==> AllSpace(s)
  {
    var i, j := FirstField(s);
    assert s[..|s|] == s && s[|s|..] == "";
    if AllSpace(s) {
      FieldsSkip(s, |s|);
    }
  }

  lemma OneField(s: string, word: string)
    requires IsWord(word)
    ensures Fields(s) == [word] <==> exists i :: OneWordAt(s, word, i)
  {
    if Fields(s) == [word] {
      var i, j := FirstField(s);
      NoFields(s[j..]);
      assert Fields(s[j..]) == [word][1..] == [];
      assert OneWordAt(s, word, i);
    }
    if i :| OneWordAt(s, word, i) {
      var j := i + |word|;
      assert j < |s| ==> s[j] == s[j..][0] && s[j..][0] in s[j..];
      FieldAt(s, i, j);
      NoFields(s[j..]);
    }
  }

  lemma TwoFields(s: string, first: string, second: string)
    requires IsWord(first) && IsWord(second)
    ensures Fields(s) == [first, second] <==> exists i, j :: TwoWordsAt(s, first, second, i, j)
  {
    if Fields(s) == [first, second] {
      TwoFieldsStand(s, first, second);
    }
    if i, j :| TwoWordsAt(s, first, second, i, j) {
      var n := i + |first|;
      assert s[n] == s[n..j][0] && s[n..j][0] in s[n..j];
      FieldAt(s, i, n);
      LaterWord(s, second, n, j);
      OneField(s[n..], second);
    }
  }

  lemma LaterWord(s: string, word: string, n: nat, j: nat)
    requires n <= j <= |s| - |word| && AllSpace(s[n..j]) && s[j..j + |word|] == word && AllSpace(s[j + |word|..])
    ensures OneWordAt(s[n..], word, j - n)
  {
    var t := s[n..];
    assert t[..j - n] == s[n..j] && t[j - n..j - n + |word|] == word && t[j - n + |word|..] == s[j + |word|..];
  }

  lemma AfterSpace(t: string, word: string, k: nat)
    requires IsWord(word) && OneWordAt(t, word, k) && IsSpace(t[0])
    ensures k > 0
  {
    assert t[k] == t[k..k + |word|][0] == word[0] && word[0] in word;
  }

  lemma TwoFieldsStand(s: string, first: string, second: string)
    requires IsWord(first) && IsWord(second) && Fields(s) == [first, second]
    ensures exists i, j :: TwoWordsAt(s, first, second, i, j)
  {
    var i, n := FirstField(s);
    var t := s[n..];
    assert Fields(t) == [first, second][1..] == [second];
    OneField(t, second);
    var k :| OneWordAt(t, second, k);
    var j := n + k;
    assert Fields(s)[0] == s[i..n] && n == i + |first|;
    assert s[n..j] == t[..k] && s[j..j + |second|] == t[k..k + |second|] && s[j + |second|..] == t[k + |second|..];
    assert n < |s| ==> t[0] == s[n];
    AfterSpace(t, second, k);
    assert TwoWordsAt(s, first, second, i, j);
  }

  lemma SameAsPair(s: seq<string>, a: string, b: string)
    requires a != b
    ensures SameStringSet(s, [a, b]) <==> s == [a, b] || s == [b, a]
  {
    if SameStringSet(s, [a, b]) {
      assert s[1] !in s[..1] && s[0] in [a, b] && s[1] in [a, b];
      assert s[..1][0] == s[0];
    }
  }

  lemma SameAsOne(s: seq<string>, a: string)
    ensures SameStringSet(s, [a]) <==> s == [a]
  {
  }

  lemma ScopeMeaning(scope: string)
    ensures ScopeOk(scope) <==> AsksForMcp(scope)
  {
    var mcp, offline := SCOPE, OFFLINE_ACCESS_SCOPE;
    assert IsWord(mcp) && IsWord(offline) && |mcp| != |offline|;
    SameAsOne(Fields(scope), mcp);
    SameAsPair(Fields(scope), mcp, offline);
    OneField(scope, mcp);
    TwoFields(scope, mcp, offline);
    TwoFields(scope, offline, mcp);
  }

  // ---------------------------------------------------------------- the fields

  // 1 to 200 characters, no control character, no white space at the ends.
  ghost predicate GoodName(name: string) {
    && 1 <= |name| <= 200 && !IsSpace(name[0]) && !IsSpace(name[|name| - 1])
    && forall c :: c in name ==> !IsControl(c)
  }

  // No grants, authorization_code, or that and refresh_token in either order.
  predicate GoodGrants(grants: seq<string>) {
    || grants == [] || grants == ["authorization_code"]
    || grants == ["authorization_code", "refresh_token"] || grants == ["refresh_token", "authorization_code"]
  }

  // The method a record asks for. Only a client document may declare a list;
  // without one the method is the given one, or none.
  ghost predicate AsksForMethod(m: Metadata, isDocument: bool, chosen: string) {
    if isDocument && m.authMethodsSupported.Some? then
      Negotiated(m.authMethodsSupported.value, m.authMethod, chosen)
    else
      (chosen == "none" && m.authMethod in ["", "none"]) || (chosen == "private_key_jwt" == m.authMethod)
  }

  // A public client has no signing fields, unless it declares that it could
  // sign; a signing one is a client document with RS256 and a key set.
  ghost predicate GoodSigning(lib: UrlLibrary, m: Metadata, isDocument: bool, chosen: string) {
    || (chosen == "none" &&
        ((m.authAlg == "" && m.jwksUri == "") ||
         (isDocument && m.authMethodsSupported.Some? && "private_key_jwt" in m.authMethodsSupported.value)))
    || (chosen == "private_key_jwt" && isDocument && m.authAlg == "RS256" && ValidJwksUri(lib, m.jwksUri))
  }

  // The id, name, redirect URIs, grants and response types of an admitted record.
  ghost predicate GoodFront(lib: UrlLibrary, m: Metadata, isDocument: bool) {
    && (isDocument ==> m.clientId != "")
    && GoodName(m.clientName)
    && 1 <= |m.redirectUris| <= 10 && NoDuplicates(m.redirectUris)
    && (forall u :: u in m.redirectUris ==> ValidRedirectUri(lib, u))
    && GoodGrants(m.grantTypes)
    && m.responseTypes in [[], ["code"]]
  }

  // What a record must be to be admitted, with this method.
  ghost predicate AdmittedWith(lib: UrlLibrary, m: Metadata, isDocument: bool, chosen: string) {
    && GoodFront(lib, m, isDocument)
    && AsksForMethod(m, isDocument, chosen) && GoodSigning(lib, m, isDocument, chosen)
    && (m.scope == "" || AsksForMcp(m.scope))
  }

  // What it becomes: defaults filled in, the rest of the fields kept or emptied.
  ghost predicate BecomesWith(m: Metadata, chosen: string, n: Metadata) {
    && n.clientId == m.clientId && n.clientName == m.clientName && n.redirectUris == m.redirectUris
    && n.grantTypes == (if "refresh_token" in m.grantTypes then ["authorization_code", "refresh_token"]
                        else ["authorization_code"])
    && n.responseTypes == ["code"]
    && n.authMethod == chosen && n.authMethodsSupported == None
    && n.authAlg == (if chosen == "none" then "" else "RS256")
    && n.jwksUri == (if chosen == "none" then "" else m.jwksUri)
    && n.scope == (if m.scope == "" then "mcp" else m.scope)
    && n.logoUri == "" && n.clientUri == "" && n.policyUri == "" && n.tosUri == ""
    && n.contacts == [] && n.softwareId == "" && n.softwareVersion == ""
  }

  // `n` is the normal form of the admitted record `m`.
  ghost predicate NormalForm(lib: UrlLibrary, m: Metadata, isDocument: bool, n: Metadata) {
    AdmittedWith(lib, m, isDocument, n.authMethod) && BecomesWith(m, n.authMethod, n)
  }

  lemma NameMeaning(name: string)
    ensures ClientNameOk(name) <==> GoodName(name)
  {
    if name != "" {
      var i, j := TrimSpaceCuts(name);
      if TrimSpace(name) == name {
        assert i == 0 && j == |name|;
      }
      if GoodName(name) {
        TrimSpaceOf("", name, "");
        assert "" + name + "" == name;
      }
    }
  }

  lemma GrantsMeaning(grants: seq<string>)
    ensures CanonicalGrants(if grants == [] then CODE_GRANT else grants) ==
            if !GoodGrants(grants) then None
            else if "refresh_token" in grants then Some(["authorization_code", "refresh_token"])
            else Some(["authorization_code"])
  {
    var code, refresh := "authorization_code", "refresh_token";
    assert |code| != |refresh|;
    SameAsOne(grants, code);
    SameAsOne(CODE_GRANT, code);
    SameAsPair(grants, code, refresh);
  }

  lemma MethodMeaning(m: Metadata, isDocument: bool, chosen: string)
    ensures SelectMethod(m, isDocument) == Ok(chosen) <==> AsksForMethod(m, isDocument, chosen)
  {
    if isDocument && m.authMethodsSupported.Some? {
      SelectDeclaredMeaning(m.authMethodsSupported.value, m.authMethod, chosen);
    }
  }

  lemma AuthExactly(lib: UrlLibrary, m: Metadata, isDocument: bool, n: Metadata)
    requires m.responseTypes == ["code"]
    requires m.grantTypes in [["authorization_code"], ["authorization_code", "refresh_token"]]
    ensures NormalizedAuth(lib, m, isDocument) == Ok(n) <==>
            && AsksForMethod(m, isDocument, n.authMethod) && GoodSigning(lib, m, isDocument, n.authMethod)
            && (m.scope == "" || AsksForMcp(m.scope)) && BecomesWith(m, n.authMethod, n)
  {
    MethodMeaning(m, isDocument, n.authMethod);
    SelectedIsSupported(m, isDocument);
    if SelectMethod(m, isDocument).Ok? {
      MethodMeaning(m, isDocument, SelectMethod(m, isDocument).value);
    }
    ScopeMeaning(m.scope);
    DefaultScope();
    assert "none" != "private_key_jwt";
    assert m.grantTypes[0] != "refresh_token";
  }

  lemma DefaultScope()
    ensures ScopeOk("mcp")
  {
    ScopeMeaning("mcp");
    assert OneWordAt("mcp", "mcp", 0);
  }

  function GrantsOf(grants: seq<string>): seq<string> {
    if "refresh_token" in grants then ["authorization_code", "refresh_token"] else ["authorization_code"]
  }

  lemma FrontExactly(lib: UrlLibrary, m: Metadata, isDocument: bool, n: Metadata)
    ensures Normalized(lib, m, isDocument) == Ok(n) <==>
            && GoodFront(lib, m, isDocument)
            && NormalizedAuth(lib, m.(grantTypes := GrantsOf(m.grantTypes), responseTypes := ["code"]), isDocument) == Ok(n)
  {
    NameMeaning(m.clientName);
    RedirectErrorMeaning(lib, m.redirectUris);
    GrantsMeaning(m.grantTypes);
    SameAsOne(m.responseTypes, "code");
  }

  lemma StagedForm(lib: UrlLibrary, m: Metadata, isDocument: bool, n: Metadata)
    ensures var staged := m.(grantTypes := GrantsOf(m.grantTypes), responseTypes := ["code"]);
            && (AsksForMethod(m, isDocument, n.authMethod) <==> AsksForMethod(staged, isDocument, n.authMethod))
            && (GoodSigning(lib, m, isDocument, n.authMethod) <==> GoodSigning(lib, staged, isDocument, n.authMethod))
            && (BecomesWith(m, n.authMethod, n) <==> BecomesWith(staged, n.authMethod, n))
  {
    assert "refresh_token" in GrantsOf(m.grantTypes) <==> "refresh_token" in m.grantTypes by {
      assert ["authorization_code", "refresh_token"][1] == "refresh_token";
      assert |"authorization_code"| != |"refresh_token"|;
    }
  }

  // Normalisation succeeds with `n` exactly when `n` is the normal form: this
  // fixes which records are admitted and every field of the result.
  lemma NormalizedExactly(lib: UrlLibrary, m: Metadata, isDocument: bool, n: Metadata)
    ensures Normalized(lib, m, isDocument) == Ok(n) <==> NormalForm(lib, m, isDocument, n)
  {
    FrontExactly(lib, m, isDocument, n);
    StagedForm(lib, m, isDocument, n);
    AuthExactly(lib, m.(grantTypes := GrantsOf(m.grantTypes), responseTypes := ["code"]), isDocument, n);
  }
}
