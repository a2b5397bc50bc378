// Shared vocabulary: optional values, results, and the few string routines of
// the standard library that the identity services branch on.

module Prelude {
  datatype Option<+T> = None | Some(value: T)

  datatype Result<+T, +E> = Ok(value: T) | Err(error: E)

  predicate NoDuplicates<T(==)>(s: seq<T>) {
    forall i, j :: 0 <= i < j < |s| ==> s[i] != s[j]
  }

  function Elements<T(==)>(s: seq<T>): set<T> {
    set x | x in s
  }

  // `order` lists every element of `s` exactly once.
  predicate Enumerates<T(==)>(order: seq<T>, s: set<T>) {
    NoDuplicates(order) && Elements(order) == s
  }

  lemma EnumeratesSnoc<T>(order: seq<T>, s: set<T>, x: T)
    requires Enumerates(order, s) && x !in s
    ensures Enumerates(order + [x], s + {x})
  {
    assert forall y :: y in order ==> y in Elements(order);
    assert Elements(order + [x]) == Elements(order) + {x};
  }

  lemma {:induction false} DistinctCount<T>(s: seq<T>)
    requires NoDuplicates(s)
    ensures |Elements(s)| == |s|
  {
    if s == [] {
      assert Elements(s) == {};
    } else {
      var front, last := s[..|s| - 1], s[|s| - 1];
      DistinctCount(front);
      assert Elements(s) == Elements(front) + {last};
    }
  }

  // Equally long, duplicate-free on one side and included in the other:
  // then both sides are duplicate-free and hold the same elements.
  lemma PigeonHole<T>(left: seq<T>, right: seq<T>)
    requires |left| == |right| && NoDuplicates(left)
    requires forall x :: x in left ==> x in right
    ensures NoDuplicates(right) && Elements(left) == Elements(right)
  {
    DistinctCount(left);
    SubsetOfSameSize(Elements(left), Elements(right), |right|) by {
      assert |Elements(right)| <= |right| by { ElementCount(right); }
    }
    NoDuplicatesFromCount(right);
  }

  lemma {:induction false} ElementCount<T>(s: seq<T>)
    ensures |Elements(s)| <= |s|
  {
    if s == [] {
      assert Elements(s) == {};
    } else {
      var front, last := s[..|s| - 1], s[|s| - 1];
      ElementCount(front);
      assert Elements(s) == Elements(front) + {last};
    }
  }

  lemma SubsetOfSameSize<T>(a: set<T>, b: set<T>, n: nat)
    requires a <= b && |a| == n && |b| <= n
    ensures a == b
  {
    assert b == a + (b - a);
  }

  lemma {:induction false} NoDuplicatesFromCount<T>(s: seq<T>)
    requires |Elements(s)| == |s|
    ensures NoDuplicates(s)
  {
    if s != [] {
      var front, last := s[..|s| - 1], s[|s| - 1];
      assert Elements(s) == Elements(front) + {last};
      ElementCount(front);
      NoDuplicatesFromCount(front);
    }
  }
}

module Text {
  // The White_Space code points, which unicode.IsSpace recognises.
  predicate IsSpace(c: char) {
    var n := c as int;
    || 0x09 <= n <= 0x0D || n == 0x20 || n == 0x85 || n == 0xA0 || n == 0x1680
    || 0x2000 <= n <= 0x200A || n == 0x2028 || n == 0x2029 || n == 0x202F
    || n == 0x205F || n == 0x3000
  }

  predicate IsControl(c: char) {
    var n := c as int;
    n <= 0x1F || 0x7F <= n <= 0x9F
  }

  function TrimLeft(s: string): string {
    if s != [] && IsSpace(s[0]) then TrimLeft(s[1..]) else s
  }

  function TrimRight(s: string): string {
    if s != [] && IsSpace(s[|s| - 1]) then TrimRight(s[..|s| - 1]) else s
  }

  function TrimSpace(s: string): string {
    TrimRight(TrimLeft(s))
  }

  // ASCII lower-casing: enough to recognise ASCII names and host labels.
  function LowerChar(c: char): char {
    if 'A' <= c <= 'Z' then c + ('a' - 'A') else c
  }

  function ToLower(s: string): string {
    seq(|s|, i requires 0 <= i < |s| => LowerChar(s[i]))
  }

  // Index of the first occurrence of `c`, or the length.
  function IndexOf(s: string, c: char): (i: nat)
    ensures i <= |s| && c !in s[..i]
    ensures i < |s| ==> s[i] == c
  {
    if s == [] || s[0] == c then 0
    else
      var rest := IndexOf(s[1..], c);
      assert s[..rest + 1] == [s[0]] + s[1..][..rest];
      1 + rest
  }

  function Split(s: string, sep: char): (parts: seq<string>)
    ensures |parts| >= 1
    decreases |s|
  {
    var i := IndexOf(s, sep);
    if i == |s| then [s] else [s[..i]] + Split(s[i + 1..], sep)
  }

  // ---------------------------------------------------------------- what the routines cut out

  predicate AllSpace(s: string) {
    forall c :: c in s ==> IsSpace(c)
  }

  lemma {:induction false} TrimLeftCuts(s: string) returns (n: nat)
    ensures n <= |s| && TrimLeft(s) == s[n..] && AllSpace(s[..n])
    ensures n < |s| ==> !IsSpace(s[n])
  {
    if s != [] && IsSpace(s[0]) {
      n := TrimLeftCuts(s[1..]);
      assert s[1..][n..] == s[n + 1..] && s[..n + 1] == [s[0]] + s[1..][..n];
      n := n + 1;
    } else {
      n := 0;
    }
  }

  lemma {:induction false} TrimRightCuts(s: string) returns (n: nat)
    ensures n <= |s| && TrimRight(s) == s[..n] && AllSpace(s[n..])
    ensures n > 0 ==> !IsSpace(s[n - 1])
  {
    if s != [] && IsSpace(s[|s| - 1]) {
      var front := s[..|s| - 1];
      n := TrimRightCuts(front);
      assert front[..n] == s[..n] && s[n..] == front[n..] + [s[|s| - 1]];
    } else {
      n := |s|;
    }
  }

  lemma {:induction false} TrimLeftOf(left: string, s: string)
    requires AllSpace(left) && (s == "" || !IsSpace(s[0]))
    ensures TrimLeft(left + s) == s
  {
    if left == "" {
      assert left + s == s;
    } else {
      assert left[0] in left && (left + s)[1..] == left[1..] + s;
      TrimLeftOf(left[1..], s);
    }
  }

  lemma {:induction false} TrimRightOf(s: string, right: string)
    requires AllSpace(right) && (s == "" || !IsSpace(s[|s| - 1]))
    ensures TrimRight(s + right) == s
  {
    if right == "" {
      assert s + right == s;
    } else {
      var n := |right| - 1;
      assert right[n] in right && (s + right)[..|s + right| - 1] == s + right[..n];
      TrimRightOf(s, right[..n]);
    }
  }

  // Trimming cuts white space off both ends, and all of it.
  lemma TrimSpaceCuts(s: string) returns (i: nat, j: nat)
    ensures i <= j <= |s| && TrimSpace(s) == s[i..j] && AllSpace(s[..i]) && AllSpace(s[j..])
    ensures i < j ==> !IsSpace(s[i]) && !IsSpace(s[j - 1])
  {
    i := TrimLeftCuts(s);
    var n := TrimRightCuts(s[i..]);
    j := i + n;
    assert s[i..][..n] == s[i..j] && s[i..][n..] == s[j..];
  }

  lemma TrimSpaceOf(left: string, s: string, right: string)
    requires AllSpace(left) && AllSpace(right)
    requires s != "" && !IsSpace(s[0]) && !IsSpace(s[|s| - 1])
    ensures TrimSpace(left + s + right) == s
  {
    assert left + s + right == left + (s + right);
    TrimLeftOf(left, s + right);
    TrimRightOf(s, right);
  }

  // Positions `i` to `j` are a stretch without the separator, bounded by
  // separators or the ends.
  predicate PieceAt(s: string, sep: char, i: int, j: int) {
    && 0 <= i <= j <= |s| && (forall k :: i <= k < j ==> s[k] != sep)
    && (i == 0 || s[i - 1] == sep) && (j == |s| || s[j] == sep)
  }

  function PieceOffset(parts: seq<string>, k: nat): nat
    requires k < |parts|
  {
    if k == 0 then 0 else |parts[0]| + 1 + PieceOffset(parts[1..], k - 1)
  }

  lemma {:induction false} OffsetsGrow(parts: seq<string>, j: nat, k: nat)
    requires j < k < |parts|
    ensures PieceOffset(parts, j) < PieceOffset(parts, k)
  {
    if j > 0 {
      OffsetsGrow(parts[1..], j - 1, k - 1);
    }
  }

  // The parts, joined by the separator they do not hold, are the text.
  ghost predicate CutInto(s: string, sep: char, parts: seq<string>)
    decreases |parts|
  {
    && parts != [] && |parts[0]| <= |s| && sep !in parts[0]
    && (forall k :: 0 <= k < |parts[0]| ==> s[k] == parts[0][k])
    && if |parts| == 1 then |parts[0]| == |s|
       else |parts[0]| < |s| && s[|parts[0]|] == sep && CutInto(s[|parts[0]| + 1..], sep, parts[1..])
  }

  lemma {:induction false} SplitCuts(s: string, sep: char)
    ensures CutInto(s, sep, Split(s, sep))
    decreases |s|
  {
    var i := IndexOf(s, sep);
    if i < |s| {
      SplitCuts(s[i + 1..], sep);
      assert Split(s, sep)[1..] == Split(s[i + 1..], sep);
    } else {
      assert s[..i] == s;
    }
  }

  lemma FirstPart(s: string, sep: char, parts: seq<string>)
    requires CutInto(s, sep, parts)
    ensures PieceAt(s, sep, 0, |parts[0]|) && s[0..|parts[0]|] == parts[0]
  {
    assert forall k :: 0 <= k < |parts[0]| ==> parts[0][k] in parts[0];
  }

  lemma {:induction false} PartsArePieces(s: string, sep: char, parts: seq<string>, k: nat) returns (i: nat, j: nat)
    requires CutInto(s, sep, parts) && k < |parts|
    ensures PieceAt(s, sep, i, j) && s[i..j] == parts[k] && i == PieceOffset(parts, k)
    decreases |parts|
  {
    var n := |parts[0]|;
    if k == 0 {
      FirstPart(s, sep, parts);
      i, j := 0, n;
    } else {
      i, j := PartsArePieces(s[n + 1..], sep, parts[1..], k - 1);
      PieceShifts(s, sep, n + 1, i, j);
      assert parts[k] == parts[1..][k - 1];
      i, j := n + 1 + i, n + 1 + j;
    }
  }

  lemma {:induction false} PiecesAreParts(s: string, sep: char, parts: seq<string>, i: nat, j: nat) returns (k: nat)
    requires CutInto(s, sep, parts) && PieceAt(s, sep, i, j)
    ensures k < |parts| && parts[k] == s[i..j] && i == PieceOffset(parts, k)
    decreases |parts|
  {
    var n := |parts[0]|;
    if i == 0 {
      assert n == j;
      k := 0;
    } else {
      assert s[i - 1] == sep && n < i;
      PieceShifts(s, sep, n + 1, i - n - 1, j - n - 1);
      k := PiecesAreParts(s[n + 1..], sep, parts[1..], i - n - 1, j - n - 1);
      k := k + 1;
    }
  }

  lemma PieceShifts(s: string, sep: char, m: nat, i: nat, j: nat)
    requires 0 < m <= |s| && s[m - 1] == sep
    ensures PieceAt(s[m..], sep, i, j) <==> PieceAt(s, sep, m + i, m + j)
    ensures i <= j <= |s| - m ==> s[m..][i..j] == s[m + i..m + j]
  {
    assert forall k :: m <= k < |s| ==> s[k] == s[m..][k - m];
  }

  lemma {:induction false} IndexOfFirst(front: string, rest: string, c: char)
    requires c !in front && (rest == "" || rest[0] == c)
    ensures IndexOf(front + rest, c) == |front|
  {
    if front == "" {
      assert front + rest == rest;
    } else {
      assert front[0] in front && (front + rest)[1..] == front[1..] + rest;
      IndexOfFirst(front[1..], rest, c);
    }
  }


  // `word` is `name` with letters of either case.
  predicate SpelledAs(word: string, name: string) {
    && |word| == |name|
    && forall i :: 0 <= i < |word| ==>
         word[i] == name[i] || ('a' <= name[i] <= 'z' && word[i] as int == name[i] as int - 32)
  }

  predicate NoCapitals(s: string) {
    forall c :: c in s ==> !('A' <= c <= 'Z')
  }

  lemma LowerMeaning(word: string, name: string)
    ensures ToLower(word) == name <==> SpelledAs(word, name) && NoCapitals(name)
  {
    if ToLower(word) == name {
      assert forall i :: 0 <= i < |name| ==> name[i] == LowerChar(word[i]);
    }
    if SpelledAs(word, name) && NoCapitals(name) {
      assert forall i :: 0 <= i < |name| ==> name[i] in name;
      assert forall i :: 0 <= i < |name| ==> ToLower(word)[i] == name[i];
    }
  }

  // The white-space separated fields of a string.
  function Fields(s: string): seq<string>
    decreases |s|
  {
    if s == [] then []
    else if IsSpace(s[0]) then Fields(s[1..])
    else
      var n := WordLength(s);
      [s[..n]] + Fields(s[n..])
  }

  function WordLength(s: string): (n: nat)
    ensures n <= |s|
    ensures s != [] && !IsSpace(s[0]) ==> n > 0
  {
    if s == [] || IsSpace(s[0]) then 0 else 1 + WordLength(s[1..])
  }

  // `p` occurs in `s` with its first character at `i`.
  predicate OccursAt(s: string, p: string, i: int) {
    0 <= i <= |s| && p <= s[i..]
  }

  predicate Contains(s: string, p: string) {
    p <= s || (s != "" && Contains(s[1..], p))
  }

  lemma {:induction false} ContainsMeaning(s: string, p: string)
    ensures Contains(s, p) <==> exists i :: OccursAt(s, p, i)
  {
    assert OccursAt(s, p, 0) <==> p <= s by { assert s[0..] == s; }
    if s != "" {
      ContainsMeaning(s[1..], p);
      forall i | 1 <= i <= |s| ensures OccursAt(s, p, i) <==> OccursAt(s[1..], p, i - 1) {
        assert s[i..] == s[1..][i - 1..];
      }
      if Contains(s[1..], p) {
        var i :| OccursAt(s[1..], p, i);
        assert OccursAt(s, p, i + 1);
      }
      if i :| OccursAt(s, p, i) {
        assert i > 0 ==> OccursAt(s[1..], p, i - 1);
      }
    } else {
      assert forall i :: OccursAt(s, p, i) ==> i == 0;
    }
  }
}
