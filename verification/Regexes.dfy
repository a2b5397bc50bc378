// The fragment of regular expressions the access rules are written in: its
// text, its parser, and the language of each expression.

module Regexes {
  import opened Prelude

  // Optional is a non-capturing group followed by "?".
  datatype Atom =
    | Chr(c: char)
    | Literal(text: string)                     // quoted text
    | AnyStar                                   // .*
    | SegmentPlus                               // [^/]+
    | Group(alts: Alts)                         // (?:...)
    | Named(name: string, alts: Alts)           // (?P<name>...)
    | Optional(alts: Alts)                      // (?:...)?

  datatype Branch = End | Then(head: Atom, tail: Branch)

  datatype Alts = One(branch: Branch) | Or(branch: Branch, rest: Alts)

  // ---------------------------------------------------------------- language

  ghost predicate MatchAtom(a: Atom, s: string)
    decreases a, 0, |s|
  {
    match a
    case Chr(c) => s == [c]
    case Literal(text) => s == text
    case AnyStar => '\n' !in s
    case SegmentPlus => s != "" && '/' !in s
    case Group(alts) => MatchAlts(alts, s)
    case Named(_, alts) => MatchAlts(alts, s)
    case Optional(alts) => s == "" || MatchAlts(alts, s)
  }

  ghost predicate MatchBranch(b: Branch, s: string)
    decreases b, 0, |s|
  {
    match b
    case End => s == ""
    case Then(head, tail) => exists i :: 0 <= i <= |s| && MatchAtom(head, s[..i]) && MatchBranch(tail, s[i..])
  }

  ghost predicate MatchAlts(alts: Alts, s: string)
    decreases alts, 0, |s|
  {
    match alts
    case One(b) => MatchBranch(b, s)
    case Or(b, rest) => MatchBranch(b, s) || MatchAlts(rest, s)
  }

  // A fixed word, then the rest.
  function Word(w: string, rest: Branch): Branch {
    Then(Literal(w), rest)
  }

  lemma MatchWord(w: string, rest: Branch, s: string)
    ensures MatchBranch(Word(w, rest), s) <==> w <= s && MatchBranch(rest, s[|w|..])
  {
    if MatchBranch(Word(w, rest), s) {
      var i :| 0 <= i <= |s| && MatchAtom(Literal(w), s[..i]) && MatchBranch(rest, s[i..]);
      assert i == |w|;
    }
    if w <= s && MatchBranch(rest, s[|w|..]) {
      assert s[..|w|] == w;
    }
  }

  lemma MatchChr(c: char, tail: Branch, s: string)
    ensures MatchBranch(Then(Chr(c), tail), s) <==> s != "" && s[0] == c && MatchBranch(tail, s[1..])
  {
    if s != "" && s[0] == c && MatchBranch(tail, s[1..]) {
      assert s[..1] == [c];
    }
    if MatchBranch(Then(Chr(c), tail), s) {
      var i :| 0 <= i <= |s| && MatchAtom(Chr(c), s[..i]) && MatchBranch(tail, s[i..]);
      assert i == 1 && s[0] == s[..i][0];
    }
  }

  lemma MatchSingle(a: Atom, s: string)
    ensures MatchBranch(Then(a, End), s) <==> MatchAtom(a, s)
  {
    if MatchAtom(a, s) {
      assert s[..|s|] == s && MatchBranch(End, s[|s|..]);
    }
    if MatchBranch(Then(a, End), s) {
      var i :| 0 <= i <= |s| && MatchAtom(a, s[..i]) && MatchBranch(End, s[i..]);
      assert s[..i] == s;
    }
  }

  // ---------------------------------------------------------------- alternatives of a list

  function AltsOf(branches: seq<Branch>): Alts
    requires branches != []
  {
    if |branches| == 1 then One(branches[0]) else Or(branches[0], AltsOf(branches[1..]))
  }

  lemma {:induction false} MatchAltsOf(branches: seq<Branch>, s: string)
    requires branches != []
    ensures MatchAlts(AltsOf(branches), s) <==> exists i :: 0 <= i < |branches| && MatchBranch(branches[i], s)
  {
    if |branches| > 1 {
      MatchAltsOf(branches[1..], s);
      if i :| 0 <= i < |branches| && MatchBranch(branches[i], s) {
        assert i > 0 ==> branches[1..][i - 1] == branches[i];
      }
      if MatchAlts(AltsOf(branches), s) && !MatchBranch(branches[0], s) {
        var i :| 0 <= i < |branches[1..]| && MatchBranch(branches[1..][i], s);
        assert branches[1..][i] == branches[i + 1];
      }
    }
  }

  // A group only when there is a choice, as the generator writes it.
  function Choice(branches: seq<Branch>): Branch
    requires branches != []
  {
    if |branches| == 1 then branches[0] else Then(Group(AltsOf(branches)), End)
  }

  lemma MatchChoice(branches: seq<Branch>, s: string)
    requires branches != []
    ensures MatchBranch(Choice(branches), s) <==> exists i :: 0 <= i < |branches| && MatchBranch(branches[i], s)
  {
    if |branches| > 1 {
      MatchSingle(Group(AltsOf(branches)), s);
      MatchAltsOf(branches, s);
    }
  }

  // ---------------------------------------------------------------- text

  // The characters regexp.QuoteMeta escapes.
  predicate IsMeta(c: char) {
    || c == '\\' || c == '.' || c == '+' || c == '*' || c == '?' || c == '(' || c == ')'
    || c == '|' || c == '[' || c == ']' || c == '{' || c == '}' || c == '^' || c == '$'
  }

  function QuoteChr(c: char): string {
    if IsMeta(c) then ['\\', c] else [c]
  }

  function QuoteMeta(s: string): string {
    if s == "" then "" else QuoteChr(s[0]) + QuoteMeta(s[1..])
  }

  lemma {:induction false} QuoteMetaHomomorphism(s: string, t: string)
    ensures QuoteMeta(s + t) == QuoteMeta(s) + QuoteMeta(t)
  {
    if s == "" {
      assert s + t == t;
    } else {
      assert (s + t)[0] == s[0] && (s + t)[1..] == s[1..] + t;
      QuoteMetaHomomorphism(s[1..], t);
    }
  }

  lemma {:induction false} QuotePlain(s: string)
    requires forall c :: c in s ==> !IsMeta(c)
    ensures QuoteMeta(s) == s
  {
    if s != "" {
      assert s[0] in s;
      QuotePlain(s[1..]);
    }
  }

  function ShowAtom(a: Atom): string
    decreases a, 0
  {
    match a
    case Chr(c) => QuoteMeta([c])
    case Literal(text) => QuoteMeta(text)
    case AnyStar => ".*"
    case SegmentPlus => "[^/]+"
    case Group(alts) => "(?:" + ShowAlts(alts) + ")"
    case Named(name, alts) => "(?P<" + name + ">" + ShowAlts(alts) + ")"
    case Optional(alts) => "(?:" + ShowAlts(alts) + ")?"
  }

  function ShowBranch(b: Branch): string
    decreases b, 0
  {
    match b
    case End => ""
    case Then(head, tail) => ShowAtom(head) + ShowBranch(tail)
  }

  function ShowAlts(alts: Alts): string
    decreases alts, 0
  {
    match alts
    case One(b) => ShowBranch(b)
    case Or(b, rest) => ShowBranch(b) + "|" + ShowAlts(rest)
  }

  function Join(parts: seq<string>, sep: string): string {
    if parts == [] then "" else if |parts| == 1 then parts[0] else parts[0] + sep + Join(parts[1..], sep)
  }

  function ShowEach(branches: seq<Branch>): seq<string> {
    seq(|branches|, i requires 0 <= i < |branches| => ShowBranch(branches[i]))
  }

  lemma {:induction false} ShowAltsOf(branches: seq<Branch>)
    requires branches != []
    ensures ShowAlts(AltsOf(branches)) == Join(ShowEach(branches), "|")
  {
    if |branches| > 1 {
      ShowAltsOf(branches[1..]);
      assert ShowEach(branches)[1..] == ShowEach(branches[1..]);
    }
  }

  // ---------------------------------------------------------------- parser

  function ParseAlts(s: string): (r: Option<(Alts, string)>)
    ensures r.Some? ==> |r.value.1| <= |s|
    decreases |s|, 2
  {
    match ParseBranch(s)
    case None => None
    case Some((b, rest)) =>
      if rest != "" && rest[0] == '|' then
        match ParseAlts(rest[1..])
        case None => None
        case Some((more, after)) => Some((Or(b, more), after))
      else Some((One(b), rest))
  }

  function ParseBranch(s: string): (r: Option<(Branch, string)>)
    ensures r.Some? ==> |r.value.1| <= |s|
    decreases |s|, 1
  {
    if s == "" || s[0] == '|' || s[0] == ')' then Some((End, s))
    else match ParseAtom(s)
      case None => None
      case Some((a, rest)) =>
        match ParseBranch(rest)
        case None => None
        case Some((tail, after)) => Some((Then(a, tail), after))
  }

  function ParseAtom(s: string): (r: Option<(Atom, string)>)
    requires s != ""
    ensures r.Some? ==> |r.value.1| < |s|
    decreases |s|, 0
  {
    if s[0] == '\\' then
      if |s| < 2 then None else Some((Chr(s[1]), s[2..]))
    else if ".*" <= s then Some((AnyStar, s[2..]))
    else if "[^/]+" <= s then Some((SegmentPlus, s[5..]))
    else if "(?:" <= s then
      match ParseAlts(s[3..])
      case None => None
      case Some((alts, rest)) =>
        if rest == "" || rest[0] != ')' then None
        else if |rest| > 1 && rest[1] == '?' then Some((Optional(alts), rest[2..]))
        else Some((Group(alts), rest[1..]))
    else if "(?P<" <= s && '>' in s then
      var n := NameLength(s[4..]);
      if 4 + n + 1 > |s| then None
      else match ParseAlts(s[4 + n + 1..])
        case None => None
        case Some((alts, rest)) =>
          if rest == "" || rest[0] != ')' then None else Some((Named(s[4..4 + n], alts), rest[1..]))
    else if IsMeta(s[0]) then None
    else Some((Chr(s[0]), s[1..]))
  }

  function NameLength(s: string): nat {
    if s == "" || s[0] == '>' then 0 else 1 + NameLength(s[1..])
  }

  // The parser reads text character by character.
  function Spelled(w: string, rest: Branch): Branch {
    if w == "" then rest else Then(Chr(w[0]), Spelled(w[1..], rest))
  }

  function SpellAtom(a: Atom): Atom
    decreases a, 0
  {
    match a
    case Group(alts) => Group(SpellAlts(alts))
    case Named(name, alts) => Named(name, SpellAlts(alts))
    case Optional(alts) => Optional(SpellAlts(alts))
    case _ => a
  }

  function SpellBranch(b: Branch): Branch
    decreases b, 0
  {
    match b
    case End => End
    case Then(head, tail) =>
      if head.Literal? then Spelled(head.text, SpellBranch(tail)) else Then(SpellAtom(head), SpellBranch(tail))
  }

  function SpellAlts(alts: Alts): Alts
    decreases alts, 0
  {
    match alts
    case One(b) => One(SpellBranch(b))
    case Or(b, rest) => Or(SpellBranch(b), SpellAlts(rest))
  }

  lemma {:induction false} MatchSpelled(w: string, rest: Branch, s: string)
    ensures MatchBranch(Spelled(w, rest), s) <==> w <= s && MatchBranch(rest, s[|w|..])
  {
    if w == "" {
      assert s[0..] == s;
    } else {
      MatchChr(w[0], Spelled(w[1..], rest), s);
      if s != "" && s[0] == w[0] {
        MatchSpelled(w[1..], rest, s[1..]);
        assert w == [w[0]] + w[1..] && s == [s[0]] + s[1..];
        if w[1..] <= s[1..] {
          assert s[1..][|w| - 1..] == s[|w|..];
        }
      }
    }
  }

  // Spelling an expression out changes nothing about what it matches.
  lemma {:induction false} SpellKeepsLanguage(b: Branch, s: string)
    ensures MatchBranch(SpellBranch(b), s) <==> MatchBranch(b, s)
    decreases b, 0, |s|
  {
    match b
    case End =>
    case Then(head, tail) =>
      forall i | 0 <= i <= |s|
        ensures MatchBranch(SpellBranch(tail), s[i..]) <==> MatchBranch(tail, s[i..])
        ensures MatchAtom(SpellAtom(head), s[..i]) <==> MatchAtom(head, s[..i]) {
        SpellKeepsLanguage(tail, s[i..]);
        SpellKeepsAtom(head, s[..i]);
      }
      if head.Literal? {
        MatchSpelled(head.text, SpellBranch(tail), s);
        MatchWord(head.text, tail, s);
      }
  }

  lemma {:induction false} SpellKeepsAtom(a: Atom, s: string)
    ensures MatchAtom(SpellAtom(a), s) <==> MatchAtom(a, s)
    decreases a, 0, |s|
  {
    match a
    case Group(alts) => SpellKeepsAlts(alts, s);
    case Named(_, alts) => SpellKeepsAlts(alts, s);
    case Optional(alts) => SpellKeepsAlts(alts, s);
    case _ =>
  }

  lemma {:induction false} SpellKeepsAlts(alts: Alts, s: string)
    ensures MatchAlts(SpellAlts(alts), s) <==> MatchAlts(alts, s)
    decreases alts, 0, |s|
  {
    SpellKeepsLanguage(alts.branch, s);
    if alts.Or? {
      SpellKeepsAlts(alts.rest, s);
    }
  }

  // Group names are closed by the first ">".
  predicate AtomOk(a: Atom)
    decreases a, 0
  {
    match a
    case Group(alts) => AltsOk(alts)
    case Named(name, alts) => '>' !in name && AltsOk(alts)
    case Optional(alts) => AltsOk(alts)
    case _ => true
  }

  predicate BranchOk(b: Branch)
    decreases b, 0
  {
    b.Then? ==> AtomOk(b.head) && BranchOk(b.tail)
  }

  predicate AltsOk(alts: Alts)
    decreases alts, 0
  {
    BranchOk(alts.branch) && (alts.Or? ==> AltsOk(alts.rest))
  }

  // What may follow a branch: nothing, another alternative, or a closing.
  predicate Stops(s: string) {
    s == "" || s[0] == '|' || s[0] == ')'
  }

  lemma {:induction false} NameLengthAt(name: string, rest: string)
    requires '>' !in name
    ensures NameLength(name + ">" + rest) == |name|
  {
    if name == "" {
      assert name + ">" + rest == ">" + rest;
    } else {
      assert (name + ">" + rest)[1..] == name[1..] + ">" + rest;
      assert name[0] in name;
      NameLengthAt(name[1..], rest);
    }
  }

  // No atom's text starts like a stop or like the "?" of an optional group.
  lemma AtomStart(a: Atom)
    requires !a.Literal?
    ensures ShowAtom(a) != "" && !Stops(ShowAtom(a)) && ShowAtom(a)[0] != '?'
  {
  }

  lemma {:induction false} BranchStart(b: Branch, rest: string)
    requires Stops(rest)
    ensures var s := ShowBranch(b) + rest; s == "" || s[0] != '?'
  {
    if b.Then? {
      if b.head.Literal? {
        BranchStart(b.tail, rest);
        if b.head.text == "" {
          assert ShowBranch(b) == ShowBranch(b.tail);
        } else {
          QuotedStart(b.head.text);
          assert (ShowBranch(b) + rest)[0] == QuoteMeta(b.head.text)[0];
        }
      } else {
        AtomStart(b.head);
      }
    }
  }

  lemma QuotedStart(w: string)
    requires w != ""
    ensures QuoteMeta(w) != "" && QuoteMeta(w)[0] != '?'
  {
  }

  lemma {:induction false} ParseQuoted(w: string, after: string, tail: Branch, rest: string)
    requires ParseBranch(after) == Some((tail, rest))
    ensures ParseBranch(QuoteMeta(w) + after) == Some((Spelled(w, tail), rest))
  {
    if w == "" {
      assert QuoteMeta(w) + after == after;
    } else {
      ParseQuoted(w[1..], after, tail, rest);
      ParseOneMore(w[0], QuoteMeta(w[1..]) + after, Spelled(w[1..], tail), rest);
      ConcatAssociates(QuoteChr(w[0]), QuoteMeta(w[1..]), after);
    }
  }

  lemma ConcatAssociates(a: string, b: string, c: string)
    ensures (a + b) + c == a + (b + c)
  {
  }

  lemma ParseOneMore(c: char, more: string, tail: Branch, rest: string)
    requires ParseBranch(more) == Some((tail, rest))
    ensures ParseBranch(QuoteChr(c) + more) == Some((Then(Chr(c), tail), rest))
  {
    ParseChr(c, more);
  }

  lemma ParseChr(c: char, more: string)
    ensures var s := QuoteChr(c) + more; s != "" && !Stops(s) && ParseAtom(s) == Some((Chr(c), more))
  {
    var s := QuoteChr(c) + more;
    assert IsMeta(c) ==> s[2..] == more;
    assert !IsMeta(c) ==> s[0] == c && s[1..] == more;
  }

  lemma {:induction false} ParseShowAtom(a: Atom, rest: string)
    requires AtomOk(a) && !a.Literal? && (rest == "" || rest[0] != '?')
    ensures ParseAtom(ShowAtom(a) + rest) == Some((SpellAtom(a), rest))
    decreases a, 0
  {
    match a
    case Chr(c) =>
      ParseChr(c, rest);
      assert QuoteMeta([c]) == QuoteChr(c);
    case AnyStar => ParsePlain(a, rest);
    case SegmentPlus => ParsePlain(a, rest);
    case Group(alts) => ParseShowGroup(alts, rest);
    case Optional(alts) => ParseShowOptional(alts, rest);
    case Named(name, alts) => ParseShowNamed(name, alts, rest);
  }

  lemma ParsePlain(a: Atom, rest: string)
    requires a.AnyStar? || a.SegmentPlus?
    ensures ParseAtom(ShowAtom(a) + rest) == Some((a, rest))
  {
    var s := ShowAtom(a) + rest;
    if a.AnyStar? {
      assert s[2..] == rest && s[0] == '.';
    } else {
      assert s[5..] == rest && s[0] == '[';
    }
  }

  lemma {:induction false} ParseShowGroup(alts: Alts, rest: string)
    requires AltsOk(alts) && (rest == "" || rest[0] != '?')
    ensures ParseAtom(ShowAtom(Group(alts)) + rest) == Some((Group(SpellAlts(alts)), rest))
    decreases alts, 1
  {
    ParseShowAlts(alts, ")" + rest);
    GroupText(ShowAlts(alts), ")", rest);
    ReadGroup(ShowAlts(alts) + (")" + rest), SpellAlts(alts), ")" + rest);
  }

  lemma {:induction false} ParseShowOptional(alts: Alts, rest: string)
    requires AltsOk(alts)
    ensures ParseAtom(ShowAtom(Optional(alts)) + rest) == Some((Optional(SpellAlts(alts)), rest))
    decreases alts, 1
  {
    ParseShowAlts(alts, ")?" + rest);
    GroupText(ShowAlts(alts), ")?", rest);
    ReadOptional(ShowAlts(alts) + (")?" + rest), SpellAlts(alts), ")?" + rest);
  }

  lemma GroupText(shown: string, close: string, rest: string)
    ensures "(?:" + shown + close + rest == "(?:" + (shown + (close + rest))
    ensures (close + rest)[|close|..] == rest
  {
  }

  lemma ReadGroup(body: string, alts: Alts, after: string)
    requires ParseAlts(body) == Some((alts, after)) && after != "" && after[0] == ')'
    requires |after| == 1 || after[1] != '?'
    ensures ParseAtom("(?:" + body) == Some((Group(alts), after[1..]))
  {
    var s := "(?:" + body;
    assert s[3..] == body && s[0] == '(' && s[1] == '?' && s[2] == ':';
  }

  lemma ReadOptional(body: string, alts: Alts, after: string)
    requires ParseAlts(body) == Some((alts, after)) && |after| > 1 && after[0] == ')' && after[1] == '?'
    ensures ParseAtom("(?:" + body) == Some((Optional(alts), after[2..]))
  {
    var s := "(?:" + body;
    assert s[3..] == body && s[0] == '(' && s[1] == '?' && s[2] == ':';
  }

  lemma {:induction false} ParseShowNamed(name: string, alts: Alts, rest: string)
    requires '>' !in name && AltsOk(alts)
    ensures ParseAtom(ShowAtom(Named(name, alts)) + rest) == Some((Named(name, SpellAlts(alts)), rest))
    decreases alts, 1
  {
    var body := ShowAlts(alts) + (")" + rest);
    ParseShowAlts(alts, ")" + rest);
    ReadNamed(name, body, SpellAlts(alts), ")" + rest);
    NamedText(name, ShowAlts(alts), rest);
  }

  lemma NamedText(name: string, shown: string, rest: string)
    ensures "(?P<" + name + ">" + shown + ")" + rest == "(?P<" + (name + ">" + (shown + (")" + rest)))
    ensures (")" + rest)[1..] == rest
  {
  }

  lemma ReadNamed(name: string, body: string, alts: Alts, after: string)
    requires '>' !in name && ParseAlts(body) == Some((alts, after)) && after != "" && after[0] == ')'
    ensures ParseAtom("(?P<" + (name + ">" + body)) == Some((Named(name, alts), after[1..]))
  {
    var s := "(?P<" + (name + ">" + body);
    assert s[4..] == name + ">" + body;
    NameLengthAt(name, body);
    assert s[4..4 + |name|] == name;
    assert s[4 + |name| + 1..] == body;
    assert s[4 + |name|] == '>';
    assert s[0] == '(' && s[1] == '?' && s[2] == 'P';
  }

  lemma {:induction false} ParseShowBranch(b: Branch, rest: string)
    requires BranchOk(b) && Stops(rest)
    ensures ParseBranch(ShowBranch(b) + rest) == Some((SpellBranch(b), rest))
    decreases b, 0
  {
    match b
    case End => assert "" + rest == rest;
    case Then(head, tail) =>
      var after := ShowBranch(tail) + rest;
      ParseShowBranch(tail, rest);
      assert ShowBranch(b) + rest == ShowAtom(head) + after;
      if head.Literal? {
        ParseQuoted(head.text, after, SpellBranch(tail), rest);
      } else {
        BranchStart(tail, rest);
        ParseShowAtom(head, after);
        AtomStart(head);
      }
  }

  lemma {:induction false} ParseShowAlts(alts: Alts, rest: string)
    requires AltsOk(alts) && (rest == "" || rest[0] == ')')
    ensures ParseAlts(ShowAlts(alts) + rest) == Some((SpellAlts(alts), rest))
    decreases alts, 0
  {
    match alts
    case One(b) =>
      ParseShowBranch(b, rest);
      assert ParseBranch(ShowAlts(alts) + rest) == Some((SpellBranch(b), rest));
    case Or(b, more) =>
      var tail := ShowAlts(more) + rest;
      ParseShowAlts(more, rest);
      ParseShowOr(b, SpellAlts(more), tail, rest);
      assert ShowAlts(alts) + rest == ShowBranch(b) + ("|" + tail);
  }

  lemma {:induction false} ParseShowOr(b: Branch, more: Alts, tail: string, rest: string)
    requires BranchOk(b) && ParseAlts(tail) == Some((more, rest))
    ensures ParseAlts(ShowBranch(b) + ("|" + tail)) == Some((Or(SpellBranch(b), more), rest))
    decreases b, 1
  {
    ParseShowBranch(b, "|" + tail);
    assert ("|" + tail)[1..] == tail;
  }

  // The text of an expression, read as one, matches the whole string.
  ghost predicate TextMatches(text: string, s: string) {
    var read := ParseBranch(text);
    read.Some? && read.value.1 == "" && MatchBranch(read.value.0, s)
  }

  // Reading a written expression back loses nothing: no quoted text is taken
  // for syntax and no syntax for text.
  lemma ParseShow(b: Branch, s: string)
    requires BranchOk(b)
    ensures ParseBranch(ShowBranch(b)) == Some((SpellBranch(b), ""))
    ensures TextMatches(ShowBranch(b), s) <==> MatchBranch(b, s)
  {
    ParseShowBranch(b, "");
    assert ShowBranch(b) + "" == ShowBranch(b);
    SpellKeepsLanguage(b, s);
  }

  lemma {:induction false} AltsOfOk(branches: seq<Branch>)
    requires branches != [] && forall i :: 0 <= i < |branches| ==> BranchOk(branches[i])
    ensures AltsOk(AltsOf(branches)) && BranchOk(Choice(branches))
  {
    if |branches| > 1 {
      AltsOfOk(branches[1..]);
    }
  }
}
