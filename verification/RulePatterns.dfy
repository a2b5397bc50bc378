// The shape every generated URL matcher has: an exact origin (or the public
// and the internal API origin), a fixed path, then a remainder.

module RulePatterns {
  import opened Regexes

  datatype Source =
    | Exact(origin: string)
    | Either(first: string, second: string, base: string)

  datatype Pattern = Pattern(source: Source, prefix: string, tail: Branch)

  function Origins(source: Source): seq<string> {
    match source
    case Exact(origin) => [origin]
    case Either(first, second, _) => [first, second]
  }

  function Base(source: Source): string {
    match source
    case Exact(_) => ""
    case Either(_, _, base) => base
  }

  function Expression(pattern: Pattern): Branch {
    var path := Word(pattern.prefix, pattern.tail);
    match pattern.source
    case Exact(origin) => Word(origin, path)
    case Either(first, second, base) =>
      Then(Group(Or(Word(first, Word(base, End)), One(Word(second, Word(base, End))))), path)
  }

  // What stands between the angle brackets of the rule.
  function UrlText(pattern: Pattern): string {
    ShowBranch(Expression(pattern))
  }

  ghost predicate OnPath(pattern: Pattern, path: string) {
    var fixed := Base(pattern.source) + pattern.prefix;
    fixed <= path && MatchBranch(pattern.tail, path[|fixed|..])
  }

  // Oathkeeper matches the text, as an expression, against the whole URL.
  ghost predicate MatchesUrl(pattern: Pattern, url: string) {
    TextMatches(UrlText(pattern), url)
  }

  // The origins and the path may hold any characters.
  lemma MatchesExpression(pattern: Pattern, url: string)
    requires BranchOk(pattern.tail)
    ensures MatchesUrl(pattern, url) <==> MatchBranch(Expression(pattern), url)
  {
    match pattern.source {
      case Exact(_) =>
      case Either(first, second, base) =>
        assert BranchOk(End) && BranchOk(Word(base, End));
        assert BranchOk(Word(second, Word(base, End)));
        assert AltsOk(One(Word(second, Word(base, End))));
        assert BranchOk(Word(first, Word(base, End)));
    }
    ParseShow(Expression(pattern), url);
  }

  lemma ExpressionText(pattern: Pattern)
    ensures UrlText(pattern) ==
            (match pattern.source
             case Exact(origin) => QuoteMeta(origin)
             case Either(first, second, base) =>
               "(?:" + (QuoteMeta(first) + QuoteMeta(base)) + "|" + (QuoteMeta(second) + QuoteMeta(base)) + ")")
            + (QuoteMeta(pattern.prefix) + ShowBranch(pattern.tail))
  {
    var path := Word(pattern.prefix, pattern.tail);
    assert ShowBranch(path) == QuoteMeta(pattern.prefix) + ShowBranch(pattern.tail);
    match pattern.source {
      case Exact(origin) => assert ShowBranch(Word(origin, path)) == QuoteMeta(origin) + ShowBranch(path);
      case Either(first, second, base) => {
        ShowOrigin(first, base);
        ShowOrigin(second, base);
        ShowEither(Word(first, Word(base, End)), Word(second, Word(base, End)), path);
      }
    }
  }

  lemma ShowEither(first: Branch, second: Branch, path: Branch)
    ensures ShowBranch(Then(Group(Or(first, One(second))), path)) ==
            "(?:" + ShowBranch(first) + "|" + ShowBranch(second) + ")" + ShowBranch(path)
  {
    assert ShowAlts(One(second)) == ShowBranch(second);
    assert ShowAlts(Or(first, One(second))) == ShowBranch(first) + "|" + ShowBranch(second);
    assert "(?:" + (ShowBranch(first) + "|" + ShowBranch(second)) + ")" ==
           "(?:" + ShowBranch(first) + "|" + ShowBranch(second) + ")";
  }

  lemma ShowOrigin(origin: string, base: string)
    ensures ShowBranch(Word(origin, Word(base, End))) == QuoteMeta(origin) + QuoteMeta(base)
  {
    assert ShowBranch(Word(base, End)) == QuoteMeta(base) + ShowBranch(End) == QuoteMeta(base);
    assert ShowBranch(Word(origin, Word(base, End))) == QuoteMeta(origin) + ShowBranch(Word(base, End));
  }

  lemma MatchOrigin(origin: string, base: string, s: string)
    ensures MatchBranch(Word(origin, Word(base, End)), s) <==> s == origin + base
  {
    MatchWord(origin, Word(base, End), s);
    if origin <= s {
      MatchWord(base, End, s[|origin|..]);
      assert s == origin + s[|origin|..];
    }
    assert s == origin + base ==> s[|origin|..] == base;
  }

  // A pattern matches a URL exactly when the URL is one of its origins
  // followed by a path the pattern admits.
  lemma PatternLanguage(pattern: Pattern, url: string)
    requires BranchOk(pattern.tail)
    ensures MatchesUrl(pattern, url) <==>
            exists origin :: origin in Origins(pattern.source) && origin <= url && OnPath(pattern, url[|origin|..])
  {
    MatchesExpression(pattern, url);
    match pattern.source {
      case Exact(origin) => {
        assert origin in Origins(pattern.source);
        MatchWord(origin, Word(pattern.prefix, pattern.tail), url);
        if origin <= url {
          MatchWord(pattern.prefix, pattern.tail, url[|origin|..]);
          assert "" + pattern.prefix == pattern.prefix;
        }
      }
      case Either(first, second, base) => EitherLanguage(pattern, first, second, base, url);
    }
  }

  lemma EitherLanguage(pattern: Pattern, first: string, second: string, base: string, url: string)
    requires pattern.source == Either(first, second, base)
    ensures MatchBranch(Expression(pattern), url) <==>
            exists origin :: origin in Origins(pattern.source) && origin <= url && OnPath(pattern, url[|origin|..])
  {
    var path := Word(pattern.prefix, pattern.tail);
    var group := Group(Or(Word(first, Word(base, End)), One(Word(second, Word(base, End)))));
    if MatchBranch(Expression(pattern), url) {
      var i :| 0 <= i <= |url| && MatchAtom(group, url[..i]) && MatchBranch(path, url[i..]);
      var origin := EitherSplits(first, second, base, url, i);
      MatchWord(pattern.prefix, pattern.tail, url[i..]);
      SplitAt(origin, base, pattern.prefix, url, i);
      assert OnPath(pattern, url[|origin|..]);
    }
    forall origin | origin in [first, second] && origin <= url && OnPath(pattern, url[|origin|..])
      ensures MatchBranch(Expression(pattern), url) {
      EitherJoins(pattern, origin, url);
    }
  }

  lemma EitherJoins(pattern: Pattern, origin: string, url: string)
    requires pattern.source.Either? && origin in Origins(pattern.source)
    requires origin <= url && OnPath(pattern, url[|origin|..])
    ensures MatchBranch(Expression(pattern), url)
  {
    var first, second, base := pattern.source.first, pattern.source.second, pattern.source.base;
    var path := Word(pattern.prefix, pattern.tail);
    var i := |origin| + |base|;
    SplitBack(origin, base, pattern.prefix, url);
    MatchWord(pattern.prefix, pattern.tail, url[i..]);
    MatchOrigin(first, base, url[..i]);
    MatchOrigin(second, base, url[..i]);
    var other := One(Word(second, Word(base, End)));
    assert MatchAlts(other, url[..i]) == MatchBranch(other.branch, url[..i]);
    assert MatchAlts(Or(Word(first, Word(base, End)), other), url[..i]);
    MatchThen(Group(Or(Word(first, Word(base, End)), other)), path, url, i);
  }

  lemma MatchThen(head: Atom, tail: Branch, s: string, i: nat)
    requires i <= |s| && MatchAtom(head, s[..i]) && MatchBranch(tail, s[i..])
    ensures MatchBranch(Then(head, tail), s)
  {
  }

  lemma EitherSplits(first: string, second: string, base: string, url: string, i: nat) returns (origin: string)
    requires i <= |url|
    requires MatchAtom(Group(Or(Word(first, Word(base, End)), One(Word(second, Word(base, End))))), url[..i])
    ensures origin in [first, second] && url[..i] == origin + base
  {
    MatchOrigin(first, base, url[..i]);
    MatchOrigin(second, base, url[..i]);
    var other := One(Word(second, Word(base, End)));
    assert MatchAlts(Or(Word(first, Word(base, End)), other), url[..i]);
    assert MatchAlts(other, url[..i]) == MatchBranch(other.branch, url[..i]);
    origin := if url[..i] == first + base then first else second;
  }

  lemma SplitAt(origin: string, base: string, prefix: string, url: string, i: nat)
    requires i <= |url| && url[..i] == origin + base && prefix <= url[i..]
    ensures origin <= url && base + prefix <= url[|origin|..]
    ensures url[|origin|..][|base + prefix|..] == url[i..][|prefix|..]
  {
    assert url == origin + base + url[i..];
    assert url[|origin|..] == base + url[i..];
  }

  lemma SplitBack(origin: string, base: string, prefix: string, url: string)
    requires origin <= url && base + prefix <= url[|origin|..]
    ensures var i := |origin| + |base|;
            && url[..i] == origin + base && prefix <= url[i..]
            && url[i..][|prefix|..] == url[|origin|..][|base + prefix|..]
  {
    var rest := url[|origin|..];
    assert url == origin + rest;
    assert rest == base + prefix + rest[|base + prefix|..];
  }
}
