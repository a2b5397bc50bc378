// How long a fetched metadata document may be cached: the Cache-Control reading
// of the resolver. The directives are those of sections 5.2.2.1 (max-age),
// 5.2.2.4 (no-cache) and 5.2.2.5 (no-store) of RFC 9111.

module CacheControl {
  import opened Prelude
  import opened Text

  // Durations are nanoseconds in a signed 64-bit integer.
  const SECOND := 1_000_000_000
  const DEFAULT_TTL := 900 * SECOND
  const MAXIMUM_TTL := 3600 * SECOND
  const TWO_63 := 0x8000_0000_0000_0000
  const TWO_64 := 0x1_0000_0000_0000_0000

  function Wrap64(x: int): int {
    (x + TWO_63) % TWO_64 - TWO_63
  }

  // ---------------------------------------------------------------- decimal text

  predicate IsDigit(c: char) { '0' <= c <= '9' }

  function DigitsValue(s: string): (n: nat)
    requires forall c :: c in s ==> IsDigit(c)
  {
    if s == [] then 0
    else
      assert s[|s| - 1] in s && IsDigit(s[|s| - 1]);
      10 * DigitsValue(s[..|s| - 1]) + (s[|s| - 1] as int - '0' as int)
  }

  function ParseInt64(s: string): Option<int> {
    var negative := s != [] && s[0] == '-';
    var digits := if s != [] && (s[0] == '-' || s[0] == '+') then s[1..] else s;
    if digits == [] || exists c :: c in digits && !IsDigit(c) then None
    else
      var n := if negative then -(DigitsValue(digits) as int) else DigitsValue(digits);
      if -TWO_63 <= n < TWO_63 then Some(n) else None
  }

  function Decimal(n: nat): (s: string)
    ensures s != [] && forall c :: c in s ==> IsDigit(c)
  {
    var last := [('0' as int + n % 10) as char];
    if n < 10 then last else Decimal(n / 10) + last
  }

  lemma {:induction false} DecimalRoundTrip(n: nat)
    ensures DigitsValue(Decimal(n)) == n
    ensures n < TWO_63 ==> ParseInt64(Decimal(n)) == Some(n)
  {
    if n >= 10 {
      DecimalRoundTrip(n / 10);
      var s := Decimal(n);
      assert s[..|s| - 1] == Decimal(n / 10);
    }
    assert IsDigit(Decimal(n)[0]);
  }

  // ---------------------------------------------------------------- directives

  function TrimQuotes(s: string): string {
    if s != [] && s[0] == '"' then TrimQuotes(s[1..])
    else if s != [] && s[|s| - 1] == '"' then TrimQuotes(s[..|s| - 1])
    else s
  }

  // The directive is no-store or no-cache, with or without an argument.
  predicate Forbids(directive: string) {
    var name := TrimSpace(ToLower(directive[..IndexOf(directive, '=')]));
    name == "no-store" || name == "no-cache"
  }

  // The argument of a max-age directive that has one.
  function MaxAgeArgument(directive: string): Option<string> {
    var d := TrimSpace(ToLower(directive));
    var i := IndexOf(d, '=');
    if i < |d| && d[..i] == "max-age" then Some(d[i + 1..]) else None
  }

  function SecondsTtl(seconds: int): int {
    if seconds <= 0 then 0
    else
      var ttl := Wrap64(seconds * SECOND);
      if ttl > MAXIMUM_TTL then MAXIMUM_TTL else ttl
  }

  function AgeTtl(argument: string): int {
    match ParseInt64(TrimQuotes(argument))
    case None => 0
    case Some(n) => SecondsTtl(n)
  }

  function FirstAgeTtl(directives: seq<string>): int {
    if directives == [] then DEFAULT_TTL
    else match MaxAgeArgument(directives[0])
      case Some(argument) => AgeTtl(argument)
      case None => FirstAgeTtl(directives[1..])
  }

  function Ttl(cacheControl: string): int {
    var directives := Split(cacheControl, ',');
    if exists i :: 0 <= i < |directives| && Forbids(directives[i]) then 0
    else FirstAgeTtl(directives)
  }

  // metadataCacheTTL: one pass for the forbidding directives, one for max-age.
  method MetadataCacheTtl(cacheControl: string) returns (ttl: int)
    ensures ttl == Ttl(cacheControl)
    ensures ttl <= MAXIMUM_TTL
  {
    TtlBounded(cacheControl);
    var directives := Split(cacheControl, ',');
    for i := 0 to |directives|
      invariant forall j :: 0 <= j < i ==> !Forbids(directives[j])
    {
      if Forbids(directives[i]) {
        return 0;
      }
    }
    assert directives[0..] == directives;
    for i := 0 to |directives|
      invariant FirstAgeTtl(directives[i..]) == FirstAgeTtl(directives)
    {
      assert directives[i..][1..] == directives[i + 1..];
      match MaxAgeArgument(directives[i]) {
        case Some(argument) =>
          var seconds := ParseInt64(TrimQuotes(argument));
          if seconds == None || seconds.value <= 0 {
            return 0;
          }
          ttl := Wrap64(seconds.value * SECOND);
          if ttl > MAXIMUM_TTL {
            return MAXIMUM_TTL;
          }
          return ttl;
        case None =>
      }
    }
    return DEFAULT_TTL;
  }

  // ---------------------------------------------------------------- what the answer means

  lemma {:induction false} FirstAgeBounded(directives: seq<string>)
    ensures FirstAgeTtl(directives) <= MAXIMUM_TTL
  {
    if directives != [] {
      FirstAgeBounded(directives[1..]);
    }
  }

  lemma TtlBounded(cacheControl: string)
    ensures Ttl(cacheControl) <= MAXIMUM_TTL
  {
    FirstAgeBounded(Split(cacheControl, ','));
  }

  // The leftmost max-age with an argument decides; without one, the default.
  lemma {:induction false} LeftmostAgeDecides(directives: seq<string>, k: nat)
    requires k <= |directives|
    requires forall j :: 0 <= j < k ==> MaxAgeArgument(directives[j]) == None
    requires k < |directives| ==> MaxAgeArgument(directives[k]).Some?
    ensures FirstAgeTtl(directives) ==
            if k == |directives| then DEFAULT_TTL else AgeTtl(MaxAgeArgument(directives[k]).value)
  {
    if directives != [] && k > 0 {
      assert MaxAgeArgument(directives[0]) == None;
      LeftmostAgeDecides(directives[1..], k - 1);
    }
  }

  // Exactly when the lifetime is the requested one cut to an hour: the product
  // fits in 64 bits, or it wraps to something that still is an hour or more.
  lemma SecondsTtlExact(n: int)
    requires 0 < n < TWO_63
    ensures SecondsTtl(n) == (if n * SECOND < MAXIMUM_TTL then n * SECOND else MAXIMUM_TTL) <==>
            n <= 9_223_372_036 || MAXIMUM_TTL <= (n * SECOND) % TWO_64 < TWO_63
  {
    var product := n * SECOND;
    if n <= 9_223_372_036 {
      assert 0 <= product + TWO_63 < TWO_64;
    } else {
      assert product >= 9_223_372_037 * SECOND;
      WrapMeaning(product);
    }
  }

  lemma WrapMeaning(x: nat)
    ensures Wrap64(x) == if x % TWO_64 < TWO_63 then x % TWO_64 else x % TWO_64 - TWO_64
  {
    var q, r := x / TWO_64, x % TWO_64;
    assert x == q * TWO_64 + r;
    if r < TWO_63 {
      ModUnique(x + TWO_63, q, r + TWO_63);
    } else {
      ModUnique(x + TWO_63, q + 1, r - TWO_63);
    }
  }

  lemma ModUnique(x: int, q: int, r: int)
    requires x == q * TWO_64 + r && 0 <= r < TWO_64
    ensures x % TWO_64 == r
  {
    var q', r' := x / TWO_64, x % TWO_64;
    assert x == q' * TWO_64 + r';
    assert (q - q') * TWO_64 == r' - r;
    assert -1 < q - q' < 1;
  }

  // A header of a single max-age gives the requested lifetime cut to an hour,
  // as long as the number of nanoseconds fits in 64 bits.
  lemma MaxAgeHeader(n: nat)
    requires 1 <= n <= 9_223_372_036
    ensures Ttl("max-age=" + Decimal(n)) == if n < 3600 then n * SECOND else MAXIMUM_TTL
  {
    MaxAgeHeaderReads(n);
    SecondsTtlExact(n);
  }

  // Beyond that the product wraps: this header asks for about 585 years and
  // gets less than a third of a second.
  lemma MaxAgeWraps(n: nat)
    requires n == 18_446_744_074
    ensures Ttl("max-age=" + Decimal(n)) == 290_448_384
  {
    MaxAgeHeaderReads(n);
    WrapMeaning(n * SECOND);
  }

  lemma MaxAgeHeaderReads(n: nat)
    requires n < TWO_63
    ensures Ttl("max-age=" + Decimal(n)) == SecondsTtl(n)
  {
    var digits := Decimal(n);
    var header := "max-age" + "=" + digits;
    assert "max-age=" + digits == header;
    OneDirective("max-age", digits);
    assert header[..] == header;
    assert FirstAgeTtl([header]) == AgeTtl(digits);
    assert digits[0] in digits && digits[|digits| - 1] in digits;
    assert TrimQuotes(digits) == digits;
    DecimalRoundTrip(n);
  }

  // Letters of a name or an argument that neither separate nor get changed.
  predicate Plain(s: string) {
    s != [] && forall c :: c in s ==> c != ',' && c != '=' && LowerChar(c) == c && !IsSpace(c)
  }

  lemma OneDirective(name: string, argument: string)
    requires Plain(name) && Plain(argument)
    ensures var h := name + "=" + argument;
            && Split(h, ',') == [h]
            && (Forbids(h) <==> name in ["no-store", "no-cache"])
            && MaxAgeArgument(h) == (if name == "max-age" then Some(argument) else None)
  {
    var h := name + "=" + argument;
    assert ',' !in h;
    IndexWithout(h, ',');
    IndexAfter(name, '=', argument);
    assert h[..|name|] == name && h[|name| + 1..] == argument;
    TrimKeeps(name);
    TrimKeeps(h);
    forall i | 0 <= i < |h| ensures LowerChar(h[i]) == h[i] {
      assert h[i] in name || h[i] == '=' || h[i] in argument;
    }
    assert ToLower(h) == h && ToLower(name) == name;
  }

  lemma IndexAfter(front: string, c: char, rest: string)
    requires c !in front
    ensures IndexOf(front + [c] + rest, c) == |front|
  {
    var s := front + [c] + rest;
    assert s[|front|] == c;
    assert forall i :: 0 <= i < |front| ==> s[i] == front[i] && s[i] in front;
    assert c !in s[..|front|];
  }

  lemma IndexWithout(s: string, c: char)
    requires c !in s
    ensures IndexOf(s, c) == |s|
  {
  }

  lemma TrimKeeps(s: string)
    requires s != [] && !IsSpace(s[0]) && !IsSpace(s[|s| - 1])
    ensures TrimSpace(s) == s
  {
  }

  // ---------------------------------------------------------------- read off the text

  // A directive of this name: white space, the name in any case from `i` to `j`,
  // white space up to `n`, and there the end or an equals sign.
  predicate NameParts(piece: string, name: string, i: int, j: int, n: int) {
    && 0 <= i <= j <= n <= |piece| && AllSpace(piece[..i]) && AllSpace(piece[j..n])
    && SpelledAs(piece[i..j], name) && (n == |piece| || piece[n] == '=')
  }

  ghost predicate Names(piece: string, name: string) {
    exists i, j, n :: NameParts(piece, name, i, j, n)
  }

  // A directive of this name and, in small letters, this argument: white space,
  // the name from `i` to the equals sign at `n`, the argument up to `j`, and
  // white space.
  predicate AgeParts(piece: string, name: string, argument: string, i: int, n: int, j: int) {
    && 0 <= i <= n < j <= |piece| && AllSpace(piece[..i]) && AllSpace(piece[j..])
    && SpelledAs(piece[i..n], name) && piece[n] == '='
    && SpelledAs(piece[n + 1..j], argument) && NoCapitals(argument) && !IsSpace(piece[j - 1])
  }

  ghost predicate Ages(piece: string, argument: string) {
    exists i, n, j :: AgeParts(piece, "max-age", argument, i, n, j)
  }

  // The text stands for the number: quotes up to `i`, a sign or none, decimal
  // digits from `m` to `j`, and quotes.
  ghost predicate CountParts(argument: string, n: int, i: int, m: int, j: int) {
    && 0 <= i <= m < j <= |argument|
    && (forall k :: 0 <= k < i || j <= k < |argument| ==> argument[k] == '"')
    && argument[i..m] in ["", "+", "-"] && (forall c :: c in argument[m..j] ==> IsDigit(c))
    && n == (if argument[i..m] == "-" then -1 else 1) * DigitsValue(argument[m..j])
    && -TWO_63 <= n < TWO_63
  }

  ghost predicate Counts(argument: string, n: int) {
    exists i, m, j :: CountParts(argument, n, i, m, j)
  }

  // Some directive of the header is no-store or no-cache.
  ghost predicate NoCaching(header: string) {
    exists i, j :: PieceAt(header, ',', i, j) && (Names(header[i..j], "no-store") || Names(header[i..j], "no-cache"))
  }

  // The argument of the first max-age directive that has one.
  ghost predicate FirstAge(header: string, argument: string) {
    exists i, j :: PieceAt(header, ',', i, j) && Ages(header[i..j], argument) && NoAgeBefore(header, i)
  }

  ghost predicate NoAgeBefore(header: string, offset: int) {
    forall i, j, argument :: PieceAt(header, ',', i, j) && i < offset ==> !Ages(header[i..j], argument)
  }

  // Nothing that counts, zero and negative counts give no lifetime; counts up
  // to the point where the product leaves 64 bits are cut to an hour.
  ghost predicate AgeAllows(argument: string, ttl: int) {
    && ((forall n :: Counts(argument, n) ==> n <= 0) ==> ttl == 0)
    && (forall n :: Counts(argument, n) && 0 < n <= 9_223_372_036 ==>
          ttl == (if n < 3600 then n else 3600) * 1_000_000_000)
  }

  // What the header text says and nothing else decides the lifetime.
  ghost predicate LifetimeOf(header: string, ttl: int) {
    && (NoCaching(header) ==> ttl == 0)
    && (!NoCaching(header) && (forall argument :: !FirstAge(header, argument)) ==>
          ttl == 15 * 60 * 1_000_000_000)
    && (!NoCaching(header) ==> forall argument :: FirstAge(header, argument) ==> AgeAllows(argument, ttl))
  }

  lemma LowerSpace(s: string)
    ensures AllSpace(ToLower(s)) <==> AllSpace(s)
  {
    assert forall i :: 0 <= i < |s| ==> (IsSpace(ToLower(s)[i]) <==> IsSpace(s[i]));
    assert forall i :: 0 <= i < |s| ==> s[i] in s && ToLower(s)[i] in ToLower(s);
  }

  // A name as the directives are compared with: small letters, no space inside
  // its ends, no equals sign.
  predicate IsName(name: string) {
    name != "" && NoCapitals(name) && '=' !in name && !IsSpace(name[0]) && !IsSpace(name[|name| - 1])
  }

  lemma SpelledWord(word: string, name: string)
    requires IsName(name) && SpelledAs(word, name)
    ensures word != "" && '=' !in word && !IsSpace(word[0]) && !IsSpace(word[|word| - 1]) && ToLower(word) == name
  {
    LowerMeaning(word, name);
    assert forall i :: 0 <= i < |word| ==> ToLower(word)[i] == name[i] && name[i] in name;
  }

  lemma LowerSlice(s: string, i: nat, j: nat)
    requires i <= j <= |s|
    ensures ToLower(s[i..j]) == ToLower(s)[i..j]
  {
  }

  lemma LowerAround(s: string, i: nat, n: nat, j: nat)
    requires i <= n < j <= |s|
    ensures var d := ToLower(s[i..j]);
            && d[..n - i] == ToLower(s[i..n]) && d[n - i + 1..] == ToLower(s[n + 1..j])
            && d[n - i] == LowerChar(s[n])
  {
  }

  // Trimming the lower-cased text gives `d` exactly when that stands between
  // white space.
  lemma LowerTrimmed(s: string, i: nat, j: nat)
    requires i < j <= |s| && AllSpace(s[..i]) && AllSpace(s[j..]) && !IsSpace(s[i]) && !IsSpace(s[j - 1])
    ensures TrimSpace(ToLower(s)) == ToLower(s[i..j])
  {
    var l := ToLower(s);
    LowerSlice(s, 0, i);
    LowerSlice(s, i, j);
    LowerSlice(s, j, |s|);
    LowerSpace(s[0..i]);
    LowerSpace(s[j..|s|]);
    TrimSpaceOf(l[0..i], l[i..j], l[j..|s|]);
    assert l == l[0..i] + l[i..j] + l[j..|s|];
  }

  lemma LowerTrimCuts(s: string) returns (i: nat, j: nat)
    ensures i <= j <= |s| && TrimSpace(ToLower(s)) == ToLower(s[i..j]) && AllSpace(s[..i]) && AllSpace(s[j..])
    ensures i < j ==> !IsSpace(s[i]) && !IsSpace(s[j - 1])
  {
    var l := ToLower(s);
    i, j := TrimSpaceCuts(l);
    LowerSlice(s, 0, i);
    LowerSlice(s, i, j);
    LowerSlice(s, j, |s|);
    LowerSpace(s[0..i]);
    LowerSpace(s[j..|s|]);
    assert i < j ==> l[i] == LowerChar(s[i]) && l[j - 1] == LowerChar(s[j - 1]);
  }

  lemma FirstIndex(s: string, c: char, i: nat)
    requires i <= |s| && c !in s[..i] && (i == |s| || s[i] == c)
    ensures IndexOf(s, c) == i
  {
    IndexOfFirst(s[..i], s[i..], c);
    assert s[..i] + s[i..] == s;
  }

  lemma NamesMeaning(piece: string, name: string)
    requires IsName(name)
    ensures TrimSpace(ToLower(piece[..IndexOf(piece, '=')])) == name <==> Names(piece, name)
  {
    var front := piece[..IndexOf(piece, '=')];
    if TrimSpace(ToLower(front)) == name {
      var i, j := LowerTrimCuts(front);
      LowerMeaning(front[i..j], name);
      assert front[i..j] == piece[i..j] && front[..i] == piece[..i] && front[j..] == piece[j..|front|];
      assert NameParts(piece, name, i, j, |front|);
    }
    if i, j, n :| NameParts(piece, name, i, j, n) {
      NamedFront(piece, name, i, j, n);
    }
  }

  lemma NamedFront(piece: string, name: string, i: nat, j: nat, n: nat)
    requires IsName(name) && NameParts(piece, name, i, j, n)
    ensures IndexOf(piece, '=') == n && TrimSpace(ToLower(piece[..n])) == name
  {
    var front, word := piece[..n], piece[i..j];
    SpelledWord(word, name);
    Avoids(piece, '=', i, j, n);
    FirstIndex(piece, '=', n);
    assert front[i..j] == word && front[..i] == piece[..i] && front[j..] == piece[j..n];
    LowerTrimmed(front, i, j);
  }

  lemma Avoids(s: string, c: char, i: nat, j: nat, n: nat)
    requires i <= j <= n <= |s| && c !in s[..i] && c !in s[i..j] && c !in s[j..n]
    ensures c !in s[..n]
  {
    assert s[..n] == s[..i] + s[i..j] + s[j..n];
  }

  lemma ForbidsMeaning(piece: string)
    ensures Forbids(piece) <==> Names(piece, "no-store") || Names(piece, "no-cache")
  {
    NamesMeaning(piece, "no-store");
    NamesMeaning(piece, "no-cache");
  }

  // `piece` trimmed and in small letters is `name`, an equals sign and `argument`.
  predicate Reads(piece: string, name: string, argument: string) {
    var d := TrimSpace(ToLower(piece));
    var i := IndexOf(d, '=');
    i < |d| && d[..i] == name && d[i + 1..] == argument
  }

  lemma ReadsMeaning(piece: string, name: string, argument: string)
    requires IsName(name)
    ensures Reads(piece, name, argument) <==> exists i, n, j :: AgeParts(piece, name, argument, i, n, j)
  {
    if Reads(piece, name, argument) {
      var i, j := LowerTrimCuts(piece);
      AgeReadBy(piece, name, argument, i, j);
    }
    if i, n, j :| AgeParts(piece, name, argument, i, n, j) {
      AgePartsRead(piece, name, argument, i, n, j);
    }
  }

  lemma AgePartsRead(piece: string, name: string, argument: string, i: nat, n: nat, j: nat)
    requires IsName(name) && AgeParts(piece, name, argument, i, n, j)
    ensures Reads(piece, name, argument)
  {
    SpelledWord(piece[i..n], name);
    LowerMeaning(piece[n + 1..j], argument);
    assert piece[i] == piece[i..n][0];
    LowerTrimmed(piece, i, j);
    LowerAround(piece, i, n, j);
    FirstIndex(ToLower(piece[i..j]), '=', n - i);
  }

  lemma AgeReadBy(piece: string, name: string, argument: string, i: nat, j: nat)
    requires IsName(name) && i <= j <= |piece| && Reads(piece, name, argument)
    requires TrimSpace(ToLower(piece)) == ToLower(piece[i..j]) && AllSpace(piece[..i]) && AllSpace(piece[j..])
    requires i < j ==> !IsSpace(piece[j - 1])
    ensures exists i, n, j :: AgeParts(piece, name, argument, i, n, j)
  {
    var n := i + IndexOf(ToLower(piece[i..j]), '=');
    LowerAround(piece, i, n, j);
    LowerMeaning(piece[i..n], name);
    LowerMeaning(piece[n + 1..j], argument);
    assert AgeParts(piece, name, argument, i, n, j);
  }

  lemma AgeMeaning(piece: string, argument: string)
    ensures MaxAgeArgument(piece) == Some(argument) <==> Ages(piece, argument)
  {
    ReadsMeaning(piece, "max-age", argument);
  }

  // ---------------------------------------------------------------- the header as a whole

  lemma TrimQuotesCuts(s: string) returns (i: nat, j: nat)
    ensures i <= j <= |s| && TrimQuotes(s) == s[i..j]
    ensures forall k :: 0 <= k < i || j <= k < |s| ==> s[k] == '"'
  {
    if s != [] && s[0] == '"' {
      i, j := TrimQuotesCuts(s[1..]);
      assert s[1..][i..j] == s[i + 1..j + 1];
      assert forall k :: 1 <= k < |s| ==> s[1..][k - 1] == s[k];
      i, j := i + 1, j + 1;
    } else if s != [] && s[|s| - 1] == '"' {
      i, j := TrimQuotesCuts(s[..|s| - 1]);
      assert s[..|s| - 1][i..j] == s[i..j];
    } else {
      i, j := 0, |s|;
    }
  }

  lemma {:induction false} TrimQuotesOf(s: string, i: nat, j: nat)
    requires i < j <= |s| && s[i] != '"' && s[j - 1] != '"'
    requires forall k :: 0 <= k < i || j <= k < |s| ==> s[k] == '"'
    ensures TrimQuotes(s) == s[i..j]
    decreases |s|
  {
    if i > 0 {
      assert s[1..][i - 1..j - 1] == s[i..j];
      TrimQuotesOf(s[1..], i - 1, j - 1);
    } else if j < |s| {
      assert s[..|s| - 1][i..j] == s[i..j];
      TrimQuotesOf(s[..|s| - 1], i, j);
    } else {
      assert s[i..j] == s;
    }
  }

  lemma CountsMeaning(argument: string, n: int)
    ensures ParseInt64(TrimQuotes(argument)) == Some(n) <==> Counts(argument, n)
  {
    if ParseInt64(TrimQuotes(argument)) == Some(n) {
      var i, j := TrimQuotesCuts(argument);
      ParsedCounts(argument, n, i, j);
    }
    if i, m, j :| CountParts(argument, n, i, m, j) {
      CountPartsParse(argument, n, i, m, j);
    }
  }

  lemma ParsedCounts(argument: string, n: int, i: nat, j: nat)
    requires i <= j <= |argument| && ParseInt64(argument[i..j]) == Some(n)
    requires forall k :: 0 <= k < i || j <= k < |argument| ==> argument[k] == '"'
    ensures Counts(argument, n)
  {
    var signed := argument[i..j];
    var m := if signed[0] == '-' || signed[0] == '+' then i + 1 else i;
    var digits := if m == i then signed else signed[1..];
    assert argument[m..j] == digits;
    assert argument[i..m] == if m == i then "" else [signed[0]];
    assert CountParts(argument, n, i, m, j);
  }

  lemma CountPartsParse(argument: string, n: int, i: nat, m: nat, j: nat)
    requires CountParts(argument, n, i, m, j)
    ensures ParseInt64(TrimQuotes(argument)) == Some(n)
  {
    var signed, digits := argument[i..j], argument[m..j];
    assert argument[j - 1] == digits[|digits| - 1] && digits[|digits| - 1] in digits;
    assert argument[m] == digits[0] && digits[0] in digits;
    assert argument[i] != '"' by {
      if m > i {
        assert argument[i..m][0] == argument[i];
      }
    }
    TrimQuotesOf(argument, i, j);
    assert m == i + 1 ==> signed[1..] == digits;
  }

  lemma AgeOutcome(argument: string)
    ensures AgeAllows(argument, AgeTtl(argument))
  {
    forall n: int ensures ParseInt64(TrimQuotes(argument)) == Some(n) <==> Counts(argument, n) {
      CountsMeaning(argument, n);
    }
    match ParseInt64(TrimQuotes(argument))
    case None =>
    case Some(n) =>
      if n > 0 {
        SecondsTtlExact(n);
      }
  }

  lemma PieceForbids(header: string, i: int, j: int)
    requires PieceAt(header, ',', i, j) && (Names(header[i..j], "no-store") || Names(header[i..j], "no-cache"))
    ensures Ttl(header) == 0
  {
    var parts := Split(header, ',');
    SplitCuts(header, ',');
    var k := PiecesAreParts(header, ',', parts, i, j);
    ForbidsMeaning(parts[k]);
    assert Forbids(parts[k]);
  }

  lemma NothingForbids(header: string)
    requires !NoCaching(header)
    ensures Ttl(header) == FirstAgeTtl(Split(header, ','))
  {
    var parts := Split(header, ',');
    SplitCuts(header, ',');
    forall k | 0 <= k < |parts| ensures !Forbids(parts[k]) {
      var i, j := PartsArePieces(header, ',', parts, k);
      ForbidsMeaning(parts[k]);
    }
  }

  lemma PieceDecides(header: string, argument: string, i: int, j: int)
    requires PieceAt(header, ',', i, j) && Ages(header[i..j], argument) && NoAgeBefore(header, i)
    ensures FirstAgeTtl(Split(header, ',')) == AgeTtl(argument)
  {
    var parts := Split(header, ',');
    SplitCuts(header, ',');
    var k := PiecesAreParts(header, ',', parts, i, j);
    AgeMeaning(parts[k], argument);
    forall l | 0 <= l < k ensures MaxAgeArgument(parts[l]) == None {
      var a, b := PartsArePieces(header, ',', parts, l);
      OffsetsGrow(parts, l, k);
      AgelessPart(parts[l]);
    }
    LeftmostAgeDecides(parts, k);
  }

  lemma AgelessPart(piece: string)
    requires forall argument :: !Ages(piece, argument)
    ensures MaxAgeArgument(piece) == None
  {
    if MaxAgeArgument(piece).Some? {
      AgeMeaning(piece, MaxAgeArgument(piece).value);
    }
  }

  lemma NothingDecides(header: string)
    requires forall argument :: !FirstAge(header, argument)
    ensures FirstAgeTtl(Split(header, ',')) == DEFAULT_TTL
  {
    var parts := Split(header, ',');
    SplitCuts(header, ',');
    var k := FirstWithAge(parts);
    if k < |parts| {
      var i, j := PartsArePieces(header, ',', parts, k);
      var argument := MaxAgeArgument(parts[k]).value;
      AgeMeaning(parts[k], argument);
      NoneEarlier(header, parts, k, i);
      assert FirstAge(header, argument);
    }
    LeftmostAgeDecides(parts, k);
  }

  lemma {:induction false} FirstWithAge(parts: seq<string>) returns (k: nat)
    ensures k <= |parts| && (forall l :: 0 <= l < k ==> MaxAgeArgument(parts[l]) == None)
    ensures k < |parts| ==> MaxAgeArgument(parts[k]).Some?
  {
    if parts == [] || MaxAgeArgument(parts[0]).Some? {
      k := 0;
    } else {
      k := FirstWithAge(parts[1..]);
      assert forall l :: 1 <= l < |parts| ==> parts[l] == parts[1..][l - 1];
      k := k + 1;
    }
  }

  lemma NoneEarlier(header: string, parts: seq<string>, k: nat, offset: nat)
    requires CutInto(header, ',', parts) && k < |parts| && offset == PieceOffset(parts, k)
    requires forall l :: 0 <= l < k ==> MaxAgeArgument(parts[l]) == None
    ensures NoAgeBefore(header, offset)
  {
    forall i, j, argument | PieceAt(header, ',', i, j) && i < offset ensures !Ages(header[i..j], argument) {
      var l := PiecesAreParts(header, ',', parts, i, j);
      if l > k {
        OffsetsGrow(parts, k, l);
      }
      assert l < k;
      AgeMeaning(header[i..j], argument);
    }
  }

  // What the header says, read off its text, is what decides.
  lemma TtlMeaning(header: string)
    ensures LifetimeOf(header, Ttl(header))
  {
    if NoCaching(header) {
      var i, j :| PieceAt(header, ',', i, j) && (Names(header[i..j], "no-store") || Names(header[i..j], "no-cache"));
      PieceForbids(header, i, j);
    } else {
      NothingForbids(header);
      if forall argument :: !FirstAge(header, argument) {
        NothingDecides(header);
      }
      forall argument | FirstAge(header, argument) ensures AgeAllows(argument, Ttl(header)) {
        var i, j :| PieceAt(header, ',', i, j) && Ages(header[i..j], argument) && NoAgeBefore(header, i);
        PieceDecides(header, argument, i, j);
        AgeOutcome(argument);
      }
    }
  }
}
