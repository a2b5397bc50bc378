// The marks of the rule template: the placeholders and the texts that must not
// be left over. None of them can begin in one piece of the file and end in the
// next, and none holds another.

module Marks {
  import opened Text
  import opened Regexes
  import opened Substitution
  import opened Renderer

  const QUOTED_SITE := "https://site\\.example\\.invalid"
  const MARKS := LEFTOVERS + [QUOTED_SITE]

  // No text that the renderer refuses to leave behind.
  ghost predicate Unmarked(s: string) {
    forall p :: p in LEFTOVERS ==> !Contains(s, p)
  }

  ghost predicate Clear(s: string) {
    forall p :: p in MARKS ==> !Contains(s, p)
  }

  lemma ClearMeaning(s: string)
    ensures Clear(s) <==> Unmarked(s) && !Contains(s, QUOTED_SITE)
  {
    assert forall p :: p in MARKS <==> p in LEFTOVERS || p == QUOTED_SITE;
  }

  lemma EachMark(p: string)
    requires p in MARKS
    ensures p == SITE_ORIGIN || p == ISSUER_ORIGIN || p == QUOTED_SITE || p in NAMED
  {
    var i :| 0 <= i < |MARKS| && MARKS[i] == p;
  }

  // The marks without an origin.
  const NAMED := ["__KRATOS_PUBLIC_URL__", "__HYDRA_ADMIN_URL__", "__AUTHORIZATION_URL__", AUTH_HEADER,
                  INTERNAL_HEADER, "__SESSION_COOKIE_NAME__"]

  lemma ContainedChar(s: string, p: string, c: char)
    requires Contains(s, p) && c in p
    ensures c in s
  {
    ContainsMeaning(s, p);
    var i :| OccursAt(s, p, i);
    var k :| 0 <= k < |p| && p[k] == c;
    assert s[i..][k] == c && s[i + k] == c;
  }

  // ---------------------------------------------------------------- marks do not cross seams

  // A text in which a quote or an angle bracket is never needed to go on, and a
  // slash is followed by a slash or an s.
  predicate SeamSafe(p: string) {
    && p != "" && p[0] != ':'
    && (forall n :: 0 <= n < |p| ==> p[n] !in {'\'', '<', '>', '?'})
    && (forall n :: 0 <= n < |p| && p[n] == '/' ==> n + 1 < |p| && p[n + 1] in {'/', 's'})
  }

  predicate EndsSafely(x: string) {
    || (x != "" && x[|x| - 1] in {'\'', '<', '>'})
    || (|x| > 1 && x[|x| - 2..] == "?:")
  }

  predicate StartsSafely(y: string) {
    || (y != "" && y[0] == '\'')
    || (|y| > 1 && y[0] == '/' && y[1] !in {'/', 's'})
  }

  lemma SafeIsClean(x: string, y: string, p: string)
    requires SeamSafe(p) && (EndsSafely(x) || StartsSafely(y))
    ensures CleanSeam(x, y, p)
  {
    forall n | 0 < n < |p| && n <= |x| && x[|x| - n..] == p[..n]
      ensures !(y <= p[n..]) && !(p[n..] <= y) {
      var u := x[|x| - n..];
      assert u[n - 1] == x[|x| - 1] == p[n - 1];
      assert n > 1 ==> u[n - 2] == x[|x| - 2] == p[n - 2];
      assert p[n..][0] == p[n] && (n + 1 < |p| ==> p[n..][1] == p[n + 1]);
      assert !EndsSafely(x);
    }
  }

  predicate SafeHost(host: string) {
    host != "" && host[0] == 's' && forall c :: c in host ==> c !in {'\'', '<', '>', '?', '/'}
  }

  lemma HttpsSafe(p: string, host: string)
    requires SafeHost(host) && p == "https://" + host
    ensures SeamSafe(p)
  {
    assert forall n :: 8 <= n < |p| ==> p[n] == host[n - 8] && p[n] in host;
    assert p[8] == 's';
  }

  predicate Capitals(p: string) {
    forall c :: c in p ==> c == '_' || 'A' <= c <= 'Z'
  }

  lemma CapitalsSafe(p: string)
    requires p != "" && Capitals(p)
    ensures SeamSafe(p)
  {
    assert forall n :: 0 <= n < |p| ==> p[n] in p;
  }

  lemma NamedCapitals(p: string)
    requires p in NAMED
    ensures p != "" && Capitals(p) && p[0] == '_'
  {
    UrlCapitals();
    HeaderCapitals();
  }

  lemma UrlCapitals()
    ensures Capitals("__KRATOS_PUBLIC_URL__") && Capitals("__HYDRA_ADMIN_URL__") && Capitals("__AUTHORIZATION_URL__")
  {
  }

  lemma HeaderCapitals()
    ensures Capitals(AUTH_HEADER) && Capitals(INTERNAL_HEADER) && Capitals("__SESSION_COOKIE_NAME__")
  {
  }

  lemma MarksSafe(p: string)
    requires p in MARKS
    ensures SeamSafe(p)
  {
    EachMark(p);
    if p in NAMED {
      NamedCapitals(p);
      CapitalsSafe(p);
    } else {
      SiteSafe();
      IssuerSafe();
      QuotedSafe();
    }
  }

  lemma SiteSafe()
    ensures SeamSafe(SITE_ORIGIN)
  {
    var host := "site.example.invalid";
    assert SafeHost(host);
    HttpsSafe(SITE_ORIGIN, host) by { assert SITE_ORIGIN == "https://" + host; }
  }

  lemma IssuerSafe()
    ensures SeamSafe(ISSUER_ORIGIN)
  {
    var host := "sso.example.invalid";
    assert SafeHost(host);
    HttpsSafe(ISSUER_ORIGIN, host) by { assert ISSUER_ORIGIN == "https://" + host; }
  }

  lemma QuotedSafe()
    ensures SeamSafe(QUOTED_SITE)
  {
    var host := "site\\.example\\.invalid";
    assert SafeHost(host);
    HttpsSafe(QUOTED_SITE, host) by { assert QUOTED_SITE == "https://" + host; }
  }

  // ---------------------------------------------------------------- marks do not hold one another

  const KEYS := [QUOTED_SITE, SITE_ORIGIN, AUTH_HEADER, INTERNAL_HEADER]

  lemma LettersOfHeaders()
    ensures 'K' !in INTERNAL_HEADER && 'Y' !in INTERNAL_HEADER && 'U' !in INTERNAL_HEADER
    ensures 'K' !in AUTH_HEADER && 'Y' !in AUTH_HEADER && 'O' !in AUTH_HEADER && 'I' !in AUTH_HEADER && 'S' !in AUTH_HEADER
  {
    Among(INTERNAL_HEADER, "_INTERALSVCHDM");
    Among(AUTH_HEADER, "_AUTHEDRNM");
  }

  lemma Among(s: string, letters: string)
    requires forall i :: 0 <= i < |s| ==> s[i] in letters
    ensures forall c :: c in s ==> c in letters
  {
  }

  lemma LettersOfNames()
    ensures 'K' in "__KRATOS_PUBLIC_URL__" && 'Y' in "__HYDRA_ADMIN_URL__"
    ensures 'U' in "__AUTHORIZATION_URL__" && 'O' in "__AUTHORIZATION_URL__"
    ensures 'K' in "__SESSION_COOKIE_NAME__" && 'S' in "__SESSION_COOKIE_NAME__"
    ensures 'U' in AUTH_HEADER && 'I' in INTERNAL_HEADER
  {
    assert "__KRATOS_PUBLIC_URL__"[2] == 'K' && "__HYDRA_ADMIN_URL__"[3] == 'Y';
    assert "__AUTHORIZATION_URL__"[3] == 'U' && "__AUTHORIZATION_URL__"[6] == 'O';
    assert "__SESSION_COOKIE_NAME__"[13] == 'K' && "__SESSION_COOKIE_NAME__"[2] == 'S';
    assert AUTH_HEADER[3] == 'U' && INTERNAL_HEADER[2] == 'I';
  }

  lemma LettersOfSite()
    ensures 'o' !in SITE_ORIGIN && '_' !in SITE_ORIGIN && '\\' !in SITE_ORIGIN && 'h' in SITE_ORIGIN
  {
    assert SITE_ORIGIN[0] == 'h';
  }

  lemma LettersOfQuotedSite()
    ensures 'o' !in QUOTED_SITE && '_' !in QUOTED_SITE && '\\' in QUOTED_SITE && 'h' in QUOTED_SITE
  {
    assert QUOTED_SITE[12] == '\\' && QUOTED_SITE[0] == 'h';
  }

  lemma LettersOfIssuer()
    ensures 'o' in ISSUER_ORIGIN && 'h' in ISSUER_ORIGIN
  {
    assert ISSUER_ORIGIN[10] == 'o' && ISSUER_ORIGIN[0] == 'h';
  }

  lemma CharMissing(s: string, p: string, c: char)
    requires c in p && c !in s
    ensures !Contains(s, p)
  {
    if Contains(s, p) {
      ContainedChar(s, p, c);
    }
  }

  lemma HeaderHoldsNoMark(key: string, p: string)
    requires key in [AUTH_HEADER, INTERNAL_HEADER] && p in MARKS && p != key
    ensures !Contains(key, p)
  {
    EachMark(p);
    if p in NAMED {
      NameInHeader(key, p);
    } else {
      HeaderCapitals();
      LettersOfSite();
      LettersOfQuotedSite();
      LettersOfIssuer();
      assert 'h' !in key;
      CharMissing(key, p, 'h');
    }
  }

  lemma NameInHeader(key: string, p: string)
    requires key in [AUTH_HEADER, INTERNAL_HEADER] && p in NAMED && p != key
    ensures !Contains(key, p)
  {
    if key == AUTH_HEADER {
      NameInAuthHeader(p);
    } else {
      NameInInternalHeader(p);
    }
  }

  lemma NameInAuthHeader(p: string)
    requires p in NAMED && p != AUTH_HEADER
    ensures !Contains(AUTH_HEADER, p)
  {
    LettersOfHeaders();
    LettersOfNames();
    if p == NAMED[4] {
      CharMissing(AUTH_HEADER, p, 'I');
    } else if p == NAMED[5] {
      CharMissing(AUTH_HEADER, p, 'S');
    } else {
      CharMissing(AUTH_HEADER, p, if p == NAMED[0] then 'K' else if p == NAMED[1] then 'Y' else 'O');
    }
  }

  lemma NameInInternalHeader(p: string)
    requires p in NAMED && p != INTERNAL_HEADER
    ensures !Contains(INTERNAL_HEADER, p)
  {
    LettersOfHeaders();
    LettersOfNames();
    CharMissing(INTERNAL_HEADER, p, if p == NAMED[1] then 'Y' else if p == NAMED[0] || p == NAMED[5] then 'K' else 'U');
  }

  lemma SiteHoldsNoMark(p: string)
    requires p in MARKS && p != SITE_ORIGIN
    ensures !Contains(SITE_ORIGIN, p)
  {
    EachMark(p);
    LettersOfSite();
    LettersOfQuotedSite();
    LettersOfIssuer();
    if p in NAMED {
      NamedCapitals(p);
    }
    CharMissing(SITE_ORIGIN, p, if p in NAMED then '_' else if p == ISSUER_ORIGIN then 'o' else '\\');
  }

  lemma QuotedHoldsNoMark(p: string)
    requires p in MARKS && p != QUOTED_SITE
    ensures !Contains(QUOTED_SITE, p)
  {
    EachMark(p);
    if p == SITE_ORIGIN {
      RawNotInQuoted(p, QUOTED_SITE);
    } else {
      QuotedHoldsNoName(p);
    }
  }

  lemma QuotedHoldsNoName(p: string)
    requires p in NAMED || p == ISSUER_ORIGIN
    ensures !Contains(QUOTED_SITE, p)
  {
    LettersOfQuotedSite();
    LettersOfIssuer();
    if p in NAMED {
      NamedCapitals(p);
    }
    CharMissing(QUOTED_SITE, p, if p in NAMED then '_' else 'o');
  }

  // Two characters more, and a backslash where the other has its first dot.
  lemma RawNotInQuoted(raw: string, quoted: string)
    requires |raw| == 28 && raw[0] == 'h' && raw[12] == '.'
    requires |quoted| == 30 && quoted[12] == '\\' && quoted[1] == quoted[2] == 't'
    ensures !Contains(quoted, raw)
  {
    ContainsMeaning(quoted, raw);
    forall i ensures !OccursAt(quoted, raw, i) {
      if 0 <= i <= 2 {
        assert quoted[i..][0] == quoted[i] && quoted[i..][12] == quoted[i + 12];
      }
    }
  }

  lemma KeyHoldsNoMark(key: string, p: string)
    requires key in KEYS && p in MARKS && p != key
    ensures !Contains(key, p)
  {
    if key == QUOTED_SITE {
      QuotedHoldsNoMark(p);
    } else if key == SITE_ORIGIN {
      SiteHoldsNoMark(p);
    } else {
      HeaderHoldsNoMark(key, p);
    }
  }

  // ---------------------------------------------------------------- quoting and marks

  lemma QuotedSiteIs()
    ensures QuoteMeta(SITE_ORIGIN) == QUOTED_SITE
  {
    var a, b, c := "https://site", "example", "invalid";
    assert SITE_ORIGIN == a + ("." + (b + ("." + c)));
    assert QUOTED_SITE == a + ("\\." + (b + ("\\." + c)));
    ThreeLabels(SITE_ORIGIN, a, b, c);
  }

  lemma ThreeLabels(origin: string, a: string, b: string, c: string)
    requires origin == a + ("." + (b + ("." + c))) && forall ch :: ch in a + b + c ==> !IsMeta(ch)
    ensures QuoteMeta(origin) == a + ("\\." + (b + ("\\." + c)))
  {
    QuotedDot(a, b + ("." + c));
    QuotedDot(b, c);
    QuotePlain(c);
  }

  lemma QuotedDot(word: string, rest: string)
    requires forall c :: c in word ==> !IsMeta(c)
    ensures QuoteMeta(word + ("." + rest)) == word + ("\\." + QuoteMeta(rest))
  {
    QuoteMetaHomomorphism(word, "." + rest);
    QuotePlain(word);
    assert ("." + rest)[1..] == rest;
  }

  // In quoted text a backslash stands before each dot.
  lemma {:induction false} DotEscaped(s: string, j: nat)
    requires j < |QuoteMeta(s)| && QuoteMeta(s)[j] == '.'
    ensures j > 0 && QuoteMeta(s)[j - 1] == '\\'
  {
    var k := |QuoteChr(s[0])|;
    if j >= k {
      DotEscaped(s[1..], j - k);
    }
  }

  lemma DotIsEscaped(s: string, p: string, k: nat)
    requires 0 < k < |p| && p[k] == '.' && p[k - 1] != '\\'
    ensures !Contains(QuoteMeta(s), p)
  {
    var quoted := QuoteMeta(s);
    ContainsMeaning(quoted, p);
    forall i ensures !OccursAt(quoted, p, i) {
      if OccursAt(quoted, p, i) {
        assert quoted[i..][k] == '.' && quoted[i + k] == '.';
        assert quoted[i..][k - 1] == quoted[i + k - 1];
        DotEscaped(s, i + k);
        assert false;
      }
    }
  }

  lemma {:induction false} QuotedPrefix(s: string, p: string)
    requires QuoteMeta(p) <= QuoteMeta(s)
    ensures p <= s
  {
    if p != "" {
      var a, b := QuoteMeta(p[1..]), QuoteMeta(s[1..]);
      assert QuoteMeta(p) == QuoteChr(p[0]) + a && QuoteMeta(s) == QuoteChr(s[0]) + b;
      SamePiece(p[0], s[0], a, b);
      QuotedPrefix(s[1..], p[1..]);
      assert p == [p[0]] + p[1..] && s == [s[0]] + s[1..];
    }
  }

  lemma SamePiece(c: char, d: char, a: string, b: string)
    requires QuoteChr(c) + a <= QuoteChr(d) + b
    ensures c == d && a <= b
  {
    var left, right := QuoteChr(c) + a, QuoteChr(d) + b;
    assert left[0] == right[0];
    if IsMeta(c) {
      assert left[1] == c && right[1] == left[1];
    }
    assert left[|QuoteChr(c)|..] == a && right[|QuoteChr(d)|..] == b;
  }

  // An occurrence in quoted text of something quoted, which does not begin with
  // a quoted character, is the trace of an occurrence in the text.
  lemma {:induction false} QuotedOccurrence(s: string, p: string)
    requires p != "" && !IsMeta(p[0]) && Contains(QuoteMeta(s), QuoteMeta(p))
    ensures Contains(s, p)
  {
    var quoted := QuoteMeta(p);
    assert quoted[0] == p[0];
    if quoted <= QuoteMeta(s) {
      QuotedPrefix(s, p);
    } else {
      var rest := QuoteMeta(s[1..]);
      assert QuoteMeta(s) == QuoteChr(s[0]) + rest;
      if IsMeta(s[0]) {
        assert QuoteMeta(s)[1..] == [s[0]] + rest && !(quoted <= [s[0]] + rest);
        assert ([s[0]] + rest)[1..] == rest;
      } else {
        assert QuoteMeta(s)[1..] == rest;
      }
      QuotedOccurrence(s[1..], p);
    }
  }

  // Quoting brings up no mark.
  lemma QuotedIsClear(s: string)
    requires Unmarked(s)
    ensures Clear(QuoteMeta(s))
  {
    forall p | p in MARKS ensures !Contains(QuoteMeta(s), p) {
      EachMark(p);
      if p == QUOTED_SITE {
        QuotedOriginClear(s);
      } else {
        MarkInQuoted(s, p);
      }
    }
  }

  lemma QuotedOriginClear(s: string)
    requires Unmarked(s)
    ensures !Contains(QuoteMeta(s), QUOTED_SITE)
  {
    QuotedSiteIs();
    assert LEFTOVERS[0] == SITE_ORIGIN;
    if Contains(QuoteMeta(s), QUOTED_SITE) {
      QuotedOccurrence(s, SITE_ORIGIN);
    }
  }

  lemma MarkInQuoted(s: string, p: string)
    requires Unmarked(s) && p in LEFTOVERS && p != QUOTED_SITE
    ensures !Contains(QuoteMeta(s), p)
  {
    assert p in MARKS;
    EachMark(p);
    if p in NAMED {
      NamedInQuoted(s, p);
    } else if p == SITE_ORIGIN {
      DotIsEscaped(s, p, 12);
    } else {
      DotIsEscaped(s, p, 11);
    }
  }

  lemma NamedInQuoted(s: string, p: string)
    requires p in NAMED && !Contains(s, p)
    ensures !Contains(QuoteMeta(s), p)
  {
    NamedCapitals(p);
    QuotePlain(p);
    if Contains(QuoteMeta(s), p) {
      QuotedOccurrence(s, p);
    }
  }
}
