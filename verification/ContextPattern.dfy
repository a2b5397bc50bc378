// The regular expression of the authenticated MCP context, as an expression
// with its text and its language. It has character classes, counts and stars,
// which the URL matchers do without.

module ContextPattern {
  import opened Base64Url
  import CacheControl

  datatype Pattern =
    | Class(ranges: seq<(char, char)>)          // [...]
    | Times(one: Pattern, count: nat)           // p{n}
    | Both(first: Pattern, second: Pattern)     // pq
    | Choose(left: Pattern, right: Pattern)     // p|q, between the parentheses of a group
    | Many(group: Pattern)                      // (p)*
    | Maybe(group: Pattern)                     // (p)?

  const ALPHABET := Class([('A', 'Z'), ('a', 'z'), ('0', '9'), ('_', '_'), ('-', '-')])
  const ONE_BYTE_END := Class(Singles("AQgw"))
  const TWO_BYTES_END := Class(Singles("AEIMQUYcgkosw048"))

  // A class that lists its characters.
  function Singles(text: string): seq<(char, char)> {
    seq(|text|, i requires 0 <= i < |text| => (text[i], text[i]))
  }

  const FOUR := Times(ALPHABET, 4)
  const LAST := Choose(Both(ALPHABET, ONE_BYTE_END), Both(Times(ALPHABET, 2), TWO_BYTES_END))
  const CONTEXT := Both(Many(FOUR), Maybe(LAST))

  // ---------------------------------------------------------------- text

  function ShowRanges(ranges: seq<(char, char)>): string {
    if ranges == [] then ""
    else
      var (low, high) := ranges[0];
      (if low == high then [low] else [low, '-', high]) + ShowRanges(ranges[1..])
  }

  function Show(p: Pattern): string {
    match p
    case Class(ranges) => "[" + ShowRanges(ranges) + "]"
    case Times(one, count) => Show(one) + "{" + CacheControl.Decimal(count) + "}"
    case Both(first, second) => Show(first) + Show(second)
    case Choose(left, right) => Show(left) + "|" + Show(right)
    case Many(group) => "(" + Show(group) + ")*"
    case Maybe(group) => "(" + Show(group) + ")?"
  }

  // ---------------------------------------------------------------- language

  predicate InRanges(c: char, ranges: seq<(char, char)>) {
    exists i :: 0 <= i < |ranges| && ranges[i].0 <= c <= ranges[i].1
  }

  ghost predicate Match(p: Pattern, s: string)
    decreases p, 0
  {
    match p
    case Class(ranges) => |s| == 1 && InRanges(s[0], ranges)
    case Times(one, count) => MatchTimes(one, count, s)
    case Both(first, second) => exists i :: 0 <= i <= |s| && Match(first, s[..i]) && Match(second, s[i..])
    case Choose(left, right) => Match(left, s) || Match(right, s)
    case Many(group) => exists n: nat :: MatchTimes(group, n, s)
    case Maybe(group) => s == "" || Match(group, s)
  }

  // The text is n matches one after another.
  ghost predicate MatchTimes(p: Pattern, n: nat, s: string)
    decreases p, 1 + n
  {
    if n == 0 then s == ""
    else exists i :: 0 <= i <= |s| && Match(p, s[..i]) && MatchTimes(p, n - 1, s[i..])
  }

  // ---------------------------------------------------------------- the language of the context pattern

  lemma AlphabetRanges(c: char)
    ensures InRanges(c, ALPHABET.ranges) <==> InAlphabet(c)
  {
    var r := ALPHABET.ranges;
    assert r[0] == ('A', 'Z') && r[1] == ('a', 'z') && r[2] == ('0', '9') && r[3] == ('_', '_') && r[4] == ('-', '-');
  }

  lemma InSingles(c: char, text: string)
    ensures InRanges(c, Singles(text)) <==> c in text
  {
    if c in text {
      var i :| 0 <= i < |text| && text[i] == c;
      assert Singles(text)[i] == (c, c);
    }
  }

  lemma OneByteEndRanges(c: char)
    ensures InRanges(c, ONE_BYTE_END.ranges) <==> EndsOneByte(c)
  {
    InSingles(c, "AQgw");
  }

  lemma TwoBytesEndRanges(c: char)
    ensures InRanges(c, TWO_BYTES_END.ranges) <==> EndsTwoBytes(c)
  {
    InSingles(c, "AEIMQUYcgkosw048");
  }

  lemma {:induction false} AlphabetTimes(n: nat, s: string)
    ensures MatchTimes(ALPHABET, n, s) <==> |s| == n && AllInAlphabet(s)
  {
    if n > 0 {
      forall i | 0 <= i <= |s| {
        AlphabetTimes(n - 1, s[i..]);
      }
      if s != "" {
        AlphabetRanges(s[0]);
        assert s[..1] == [s[0]];
      }
      assert |s| >= 1 && AllInAlphabet(s) ==> AllInAlphabet(s[1..]);
      if MatchTimes(ALPHABET, n, s) {
        var i :| 0 <= i <= |s| && Match(ALPHABET, s[..i]) && MatchTimes(ALPHABET, n - 1, s[i..]);
        assert i == 1;
        assert forall k :: 1 <= k < |s| ==> s[k] == s[1..][k - 1];
      }
    }
  }

  // The expression matches the words of this length over the alphabet.
  ghost predicate MatchesWords(p: Pattern, length: nat) {
    forall s :: Match(p, s) <==> |s| == length && AllInAlphabet(s)
  }

  lemma WordsMatched(length: nat)
    ensures MatchesWords(Times(ALPHABET, length), length)
  {
    forall s ensures Match(Times(ALPHABET, length), s) <==> |s| == length && AllInAlphabet(s) {
      AlphabetTimes(length, s);
    }
  }

  lemma {:induction false} GroupsOfFour(p: Pattern, k: nat, s: string)
    requires MatchesWords(p, 4)
    ensures MatchTimes(p, k, s) <==> |s| == 4 * k && AllInAlphabet(s)
  {
    if k > 0 {
      if |s| >= 4 {
        GroupsOfFour(p, k - 1, s[4..]);
        AlphabetJoin(s[..4], s[4..]);
        assert s[..4] + s[4..] == s;
      }
      FirstGroup(p, k, s);
    }
  }

  lemma FirstGroup(p: Pattern, k: nat, s: string)
    requires MatchesWords(p, 4) && k > 0
    ensures MatchTimes(p, k, s) <==> |s| >= 4 && AllInAlphabet(s[..4]) && MatchTimes(p, k - 1, s[4..])
  {
    if MatchTimes(p, k, s) {
      var i :| 0 <= i <= |s| && Match(p, s[..i]) && MatchTimes(p, k - 1, s[i..]);
      assert i == 4;
    }
    if |s| >= 4 && AllInAlphabet(s[..4]) {
      assert Match(p, s[..4]);
    }
  }

  lemma AlphabetJoin(a: string, b: string)
    ensures AllInAlphabet(a + b) <==> AllInAlphabet(a) && AllInAlphabet(b)
  {
    assert forall i :: 0 <= i < |a| ==> (a + b)[i] == a[i];
    assert forall i :: 0 <= i < |b| ==> (a + b)[|a| + i] == b[i];
  }

  lemma OneByteGroup(t: string)
    ensures Match(Both(ALPHABET, ONE_BYTE_END), t) <==> |t| == 2 && InAlphabet(t[0]) && EndsOneByte(t[1])
  {
    if |t| == 2 {
      AlphabetRanges(t[0]);
      OneByteEndRanges(t[1]);
      assert t[..1] == [t[0]] && t[1..] == [t[1]];
    }
    if Match(Both(ALPHABET, ONE_BYTE_END), t) {
      var i :| 0 <= i <= |t| && Match(ALPHABET, t[..i]) && Match(ONE_BYTE_END, t[i..]);
      assert i == 1;
    }
  }

  lemma TwoBytesGroup(t: string)
    ensures Match(Both(Times(ALPHABET, 2), TWO_BYTES_END), t) <==>
            |t| == 3 && InAlphabet(t[0]) && InAlphabet(t[1]) && EndsTwoBytes(t[2])
  {
    WordsMatched(2);
    forall s ensures Match(TWO_BYTES_END, s) <==> |s| == 1 && EndsTwoBytes(s[0]) {
      if |s| == 1 {
        TwoBytesEndRanges(s[0]);
      }
    }
    PairThenEnd(Times(ALPHABET, 2), TWO_BYTES_END, t);
  }

  lemma PairThenEnd(pair: Pattern, end: Pattern, t: string)
    requires MatchesWords(pair, 2)
    requires forall s :: Match(end, s) <==> |s| == 1 && EndsTwoBytes(s[0])
    ensures Match(Both(pair, end), t) <==> |t| == 3 && InAlphabet(t[0]) && InAlphabet(t[1]) && EndsTwoBytes(t[2])
  {
    if |t| == 3 {
      assert t[..2] == [t[0], t[1]] && t[2..] == [t[2]];
    }
    if Match(Both(pair, end), t) {
      var i :| 0 <= i <= |t| && Match(pair, t[..i]) && Match(end, t[i..]);
      assert i == 2;
    }
  }

  lemma LastGroupLanguage(t: string)
    ensures Match(Maybe(LAST), t) <==> LastGroup(t)
  {
    OneByteGroup(t);
    TwoBytesGroup(t);
  }

  // The expression matches exactly what the check is taken to accept.
  lemma ContextLanguage(s: string)
    ensures Match(CONTEXT, s) <==> MatchesPattern(s)
  {
    WordsMatched(4);
    if Match(CONTEXT, s) {
      var i :| 0 <= i <= |s| && Match(Many(FOUR), s[..i]) && Match(Maybe(LAST), s[i..]);
      var k: nat :| MatchTimes(FOUR, k, s[..i]);
      GroupsOfFour(FOUR, k, s[..i]);
      LastGroupLanguage(s[i..]);
      assert SplitsAt(s, k);
    }
    if k :| SplitsAt(s, k) {
      GroupsOfFour(FOUR, k, s[..4 * k]);
      LastGroupLanguage(s[4 * k..]);
      assert Match(Many(FOUR), s[..4 * k]) && Match(Maybe(LAST), s[4 * k..]);
    }
  }

  // ---------------------------------------------------------------- the text of the context pattern

  lemma {:induction false} ShowRangesConcat(a: seq<(char, char)>, b: seq<(char, char)>)
    ensures ShowRanges(a + b) == ShowRanges(a) + ShowRanges(b)
  {
    if a == [] {
      assert a + b == b;
    } else {
      assert (a + b)[1..] == a[1..] + b;
      ShowRangesConcat(a[1..], b);
    }
  }

  lemma {:induction false} ShowSingles(text: string)
    ensures ShowRanges(Singles(text)) == text
  {
    if text != "" {
      ShowSingles(text[1..]);
      assert Singles(text)[1..] == Singles(text[1..]);
      assert text == [text[0]] + text[1..];
    }
  }

  const ALPHABET_TEXT := "[A-Za-z0-9_-]"

  lemma AlphabetText()
    ensures Show(ALPHABET) == ALPHABET_TEXT
  {
    ShowRangesConcat([('A', 'Z'), ('a', 'z'), ('0', '9')], [('_', '_'), ('-', '-')]);
    assert [('A', 'Z'), ('a', 'z'), ('0', '9')] + [('_', '_'), ('-', '-')] == ALPHABET.ranges;
  }

  lemma EndTexts()
    ensures Show(ONE_BYTE_END) == "[AQgw]" && Show(TWO_BYTES_END) == "[" + "AEIMQUYcgkosw048" + "]"
  {
    ShowSingles("AQgw");
    ShowSingles("AEIMQUYcgkosw048");
  }

  lemma CountTexts()
    ensures CacheControl.Decimal(4) == "4" && CacheControl.Decimal(2) == "2"
  {
  }

  // The expression is written as the pattern of the generator, anchors included.
  lemma ContextText()
    ensures "^" + Show(CONTEXT) + "$" ==
            "^" + ("(" + (ALPHABET_TEXT + "{" + "4" + "}") + ")*"
                   + ("(" + (ALPHABET_TEXT + "[AQgw]" + "|" +
                             (ALPHABET_TEXT + "{" + "2" + "}" + ("[" + "AEIMQUYcgkosw048" + "]"))) + ")?")) + "$"
  {
    AlphabetText();
    EndTexts();
    CountTexts();
  }
}
