// Replacing placeholders one after another in a text. For a template whose
// pieces neither hold nor, side by side, form a placeholder, any order gives
// the simultaneous substitution.

module Substitution {
  import opened Prelude
  import opened Text

  // strings.ReplaceAll for a placeholder that is not empty.
  function ReplaceAll(s: string, p: string, v: string): string
    requires p != ""
    decreases |s|
  {
    if s == "" then ""
    else if p <= s then v + ReplaceAll(s[|p|..], p, v)
    else [s[0]] + ReplaceAll(s[1..], p, v)
  }

  // A template taken apart: fixed text and placeholders.
  datatype Segment = Fixed(text: string) | Hole(key: string)

  // What a segment reads as once the placeholders in `done` are replaced.
  function Shown(segment: Segment, done: map<string, string>): string {
    match segment
    case Fixed(text) => text
    case Hole(key) => if key in done then done[key] else key
  }

  function Show(layout: seq<Segment>, done: map<string, string>): string {
    if layout == [] then "" else Shown(layout[0], done) + Show(layout[1..], done)
  }

  lemma {:induction false} ShowConcat(a: seq<Segment>, b: seq<Segment>, done: map<string, string>)
    ensures Show(a + b, done) == Show(a, done) + Show(b, done)
  {
    if a == [] {
      assert a + b == b;
    } else {
      assert (a + b)[1..] == a[1..] + b;
      ShowConcat(a[1..], b, done);
    }
  }

  // ---------------------------------------------------------------- templates that can be filled in any order

  // At some moment of the replacement the segment reads `x`.
  predicate Reads(segment: Segment, values: map<string, string>, x: string) {
    match segment
    case Fixed(text) => x == text
    case Hole(key) => x == key || (key in values && x == values[key])
  }

  // No occurrence of `p` starts inside `x` and runs over into `next`: where a
  // proper prefix of `p` ends `x`, `next` goes on in another way.
  ghost predicate CleanSeam(x: string, next: string, p: string) {
    forall n :: 0 < n < |p| && n <= |x| && x[|x| - n..] == p[..n] ==> !(next <= p[n..]) && !(p[n..] <= next)
  }

  ghost predicate Quiet(segment: Segment, values: map<string, string>, p: string) {
    forall x :: Reads(segment, values, x) ==> !Contains(x, p)
  }

  ghost predicate Parted(segment: Segment, next: Segment, values: map<string, string>, p: string) {
    forall x, y :: Reads(segment, values, x) && Reads(next, values, y) ==> CleanSeam(x, y, p)
  }

  // Everything but the segment of `p` itself is free of `p`.
  ghost predicate ClearOf(layout: seq<Segment>, values: map<string, string>, p: string) {
    && (forall j :: 0 <= j < |layout| && layout[j] != Hole(p) ==> Quiet(layout[j], values, p))
    && (forall j :: 0 <= j < |layout| - 1 && layout[j] != Hole(p) ==> Parted(layout[j], layout[j + 1], values, p))
  }

  ghost predicate WellFormed(layout: seq<Segment>, values: map<string, string>) {
    && (forall p :: p in values ==> p != "" && ClearOf(layout, values, p))
    && (forall j :: 0 <= j < |layout| && layout[j].Hole? ==> layout[j].key in values)
  }

  ghost predicate Within(done: map<string, string>, values: map<string, string>) {
    forall k :: k in done ==> k in values && done[k] == values[k]
  }

  // ---------------------------------------------------------------- one replacement

  lemma {:induction false} ReplaceBehind(x: string, rest: string, p: string, v: string)
    requires p != "" && forall i :: 0 <= i < |x| ==> !OccursAt(x + rest, p, i)
    ensures ReplaceAll(x + rest, p, v) == x + ReplaceAll(rest, p, v)
  {
    if x == "" {
      assert x + rest == rest;
    } else {
      assert !(p <= x + rest) by { assert (x + rest)[0..] == x + rest; assert !OccursAt(x + rest, p, 0); }
      assert (x + rest)[1..] == x[1..] + rest;
      forall i | 0 <= i < |x| - 1 ensures !OccursAt(x[1..] + rest, p, i) {
        assert !OccursAt(x + rest, p, i + 1);
        assert (x + rest)[i + 1..] == (x[1..] + rest)[i..];
      }
      ReplaceBehind(x[1..], rest, p, v);
      assert [x[0]] + (x[1..] + ReplaceAll(rest, p, v)) == x + ReplaceAll(rest, p, v);
    }
  }

  lemma ReplaceHere(p: string, rest: string, v: string)
    requires p != ""
    ensures ReplaceAll(p + rest, p, v) == v + ReplaceAll(rest, p, v)
  {
    assert (p + rest)[|p|..] == rest;
  }

  // A clean seam keeps occurrences from starting in `x`.
  lemma NoStart(x: string, rest: string, next: string, p: string)
    requires p != "" && !Contains(x, p)
    requires rest == "" || (next <= rest && CleanSeam(x, next, p))
    ensures forall i :: 0 <= i < |x| ==> !OccursAt(x + rest, p, i)
  {
    forall i | 0 <= i < |x| ensures !OccursAt(x + rest, p, i) {
      ContainsMeaning(x, p);
      assert !OccursAt(x, p, i);
      assert (x + rest)[i..] == x[i..] + rest;
      if p <= x[i..] + rest {
        var n := |x| - i;
        assert x[|x| - n..] == x[i..];
        PrefixOfConcat(x[i..], rest, p);
        Comparable(p[n..], next, rest);
        assert false;
      }
    }
  }

  lemma PrefixOfConcat(a: string, b: string, p: string)
    requires p <= a + b
    ensures if |p| <= |a| then p <= a else a == p[..|a|] && p[|a|..] <= b
  {
    if |p| <= |a| {
      assert p == (a + b)[..|p|] == a[..|p|];
    } else {
      assert a == (a + b)[..|p|][..|a|];
      assert p[|a|..] == (a + b)[|a|..|p|] == b[..|p| - |a|];
    }
  }

  lemma Comparable(a: string, b: string, s: string)
    requires a <= s && (s == "" || b <= s) && a != ""
    ensures a <= b || b <= a
  {
  }

  lemma ShownIsRead(segment: Segment, done: map<string, string>, values: map<string, string>)
    requires Within(done, values)
    ensures Reads(segment, values, Shown(segment, done))
  {
  }

  lemma TailClear(layout: seq<Segment>, values: map<string, string>, p: string)
    requires layout != [] && ClearOf(layout, values, p)
    ensures ClearOf(layout[1..], values, p)
  {
    forall j | 0 <= j < |layout[1..]| && layout[1..][j] != Hole(p) ensures Quiet(layout[1..][j], values, p) {
      assert layout[1..][j] == layout[j + 1];
    }
    forall j | 0 <= j < |layout[1..]| - 1 && layout[1..][j] != Hole(p)
      ensures Parted(layout[1..][j], layout[1..][j + 1], values, p) {
      assert layout[1..][j] == layout[j + 1] && layout[1..][j + 1] == layout[j + 2];
    }
  }

  // No occurrence starts in a first segment that is not the placeholder.
  lemma HeadQuiet(layout: seq<Segment>, values: map<string, string>, done: map<string, string>, p: string)
    requires layout != [] && layout[0] != Hole(p) && p != ""
    requires ClearOf(layout, values, p) && Within(done, values)
    ensures var x := Shown(layout[0], done);
            forall i :: 0 <= i < |x| ==> !OccursAt(x + Show(layout[1..], done), p, i)
  {
    var x, rest := Shown(layout[0], done), Show(layout[1..], done);
    ShownIsRead(layout[0], done, values);
    assert Quiet(layout[0], values, p);
    var next := "";
    if |layout| > 1 {
      next := Shown(layout[1], done);
      ShownIsRead(layout[1], done, values);
      assert Parted(layout[0], layout[1], values, p);
      assert layout[1..][0] == layout[1] && next <= rest;
    }
    NoStart(x, rest, next, p);
  }

  // Replacing one placeholder fills exactly its holes.
  lemma {:induction false} ReplaceFills(layout: seq<Segment>, values: map<string, string>, done: map<string, string>, p: string)
    requires ClearOf(layout, values, p) && p != "" && p in values && p !in done && Within(done, values)
    ensures ReplaceAll(Show(layout, done), p, values[p]) == Show(layout, done[p := values[p]])
  {
    if layout != [] {
      TailClear(layout, values, p);
      ReplaceFills(layout[1..], values, done, p);
      var rest := Show(layout[1..], done);
      if layout[0] == Hole(p) {
        ReplaceHere(p, rest, values[p]);
      } else {
        HeadQuiet(layout, values, done, p);
        ReplaceBehind(Shown(layout[0], done), rest, p, values[p]);
      }
    }
  }

  // The placeholder is found exactly when the template has a hole for it.
  lemma {:induction false} FoundIffHole(layout: seq<Segment>, values: map<string, string>, done: map<string, string>, p: string)
    requires ClearOf(layout, values, p) && p != "" && p !in done && Within(done, values)
    ensures Contains(Show(layout, done), p) <==> Hole(p) in layout
  {
    if layout != [] {
      TailClear(layout, values, p);
      FoundIffHole(layout[1..], values, done, p);
      var x, rest := Shown(layout[0], done), Show(layout[1..], done);
      assert layout == [layout[0]] + layout[1..];
      if layout[0] == Hole(p) {
        assert p <= p + rest;
      } else {
        HeadQuiet(layout, values, done, p);
        SkipQuiet(x, rest, p);
      }
    }
  }

  lemma {:induction false} SkipQuiet(x: string, rest: string, p: string)
    requires p != "" && forall i :: 0 <= i < |x| ==> !OccursAt(x + rest, p, i)
    ensures Contains(x + rest, p) <==> Contains(rest, p)
  {
    if x == "" {
      assert x + rest == rest;
    } else {
      assert !(p <= x + rest) by { assert (x + rest)[0..] == x + rest; assert !OccursAt(x + rest, p, 0); }
      assert (x + rest)[1..] == x[1..] + rest;
      forall i | 0 <= i < |x| - 1 ensures !OccursAt(x[1..] + rest, p, i) {
        assert !OccursAt(x + rest, p, i + 1);
        assert (x + rest)[i + 1..] == (x[1..] + rest)[i..];
      }
      SkipQuiet(x[1..], rest, p);
    }
  }

  // ---------------------------------------------------------------- pieces side by side

  // Across a clean seam replacing goes piece by piece, whatever the pieces hold.
  lemma {:induction false} ReplaceApart(x: string, rest: string, next: string, p: string, v: string)
    requires p != "" && (rest == "" || (next <= rest && CleanSeam(x, next, p)))
    ensures ReplaceAll(x + rest, p, v) == ReplaceAll(x, p, v) + ReplaceAll(rest, p, v)
    decreases |x|
  {
    if x == "" {
      assert x + rest == rest;
    } else if p <= x + rest {
      NotAcross(x, rest, next, p);
      SeamOfSuffix(x, |p|, next, p);
      ReplaceApart(x[|p|..], rest, next, p, v);
      assert (x + rest)[|p|..] == x[|p|..] + rest;
      Regroup(v, ReplaceAll(x[|p|..], p, v), ReplaceAll(rest, p, v));
    } else {
      NotAtStart(x, rest, p);
      SeamOfSuffix(x, 1, next, p);
      ReplaceApart(x[1..], rest, next, p, v);
      Regroup([x[0]], ReplaceAll(x[1..], p, v), ReplaceAll(rest, p, v));
    }
  }

  lemma Regroup(a: string, b: string, c: string)
    ensures a + (b + c) == (a + b) + c
  {
  }

  lemma NotAtStart(x: string, rest: string, p: string)
    requires x != "" && !(p <= x + rest)
    ensures !(p <= x) && (x + rest)[1..] == x[1..] + rest && (x + rest)[0] == x[0]
  {
    assert p <= x ==> p <= x + rest;
  }

  lemma NotAcross(x: string, rest: string, next: string, p: string)
    requires x != "" && p != "" && p <= x + rest && (rest == "" || (next <= rest && CleanSeam(x, next, p)))
    ensures p <= x
  {
    PrefixOfConcat(x, rest, p);
    if |p| > |x| {
      assert x[|x| - |x|..] == x;
      Comparable(p[|x|..], next, rest);
      assert false;
    }
  }

  lemma SeamOfSuffix(x: string, k: nat, next: string, p: string)
    requires k <= |x|
    ensures CleanSeam(x, next, p) ==> CleanSeam(x[k..], next, p)
  {
    var y := x[k..];
    if CleanSeam(x, next, p) {
      forall n | 0 < n < |p| && n <= |y| && y[|y| - n..] == p[..n]
        ensures !(next <= p[n..]) && !(p[n..] <= next) {
        assert y[|y| - n..] == x[|x| - n..];
      }
    }
  }

  // The seams of what the layout shows.
  ghost predicate Seamless(layout: seq<Segment>, done: map<string, string>, p: string) {
    forall j :: 0 <= j < |layout| - 1 ==> CleanSeam(Shown(layout[j], done), Shown(layout[j + 1], done), p)
  }

  lemma TailSeamless(layout: seq<Segment>, done: map<string, string>, p: string)
    requires layout != [] && Seamless(layout, done, p)
    ensures Seamless(layout[1..], done, p)
    ensures |layout| > 1 ==> CleanSeam(Shown(layout[0], done), Shown(layout[1], done), p)
  {
    forall j | 0 <= j < |layout| - 2
      ensures CleanSeam(Shown(layout[1..][j], done), Shown(layout[1..][j + 1], done), p) {
      assert layout[1..][j] == layout[j + 1] && layout[1..][j + 1] == layout[j + 2];
    }
  }

  // Replacing turns what is shown into what is shown by another filling, when
  // it does so for each segment.
  lemma {:induction false} ReplaceSegments(layout: seq<Segment>, done: map<string, string>, p: string, v: string,
                                           filled: map<string, string>)
    requires p != "" && Seamless(layout, done, p)
    requires forall j :: 0 <= j < |layout| ==> ReplaceAll(Shown(layout[j], done), p, v) == Shown(layout[j], filled)
    ensures ReplaceAll(Show(layout, done), p, v) == Show(layout, filled)
  {
    if layout != [] {
      var tail := layout[1..];
      TailSeamless(layout, done, p);
      forall j | 0 <= j < |tail| ensures ReplaceAll(Shown(tail[j], done), p, v) == Shown(tail[j], filled) {
        assert tail[j] == layout[j + 1];
      }
      ReplaceSegments(tail, done, p, v, filled);
      ReplaceApart(Shown(layout[0], done), Show(tail, done), if |layout| > 1 then Shown(layout[1], done) else "", p, v);
    }
  }

  // Without an occurrence replacing does nothing, and with one it does, unless
  // the new text is the old one.
  lemma {:induction false} ReplaceNothing(s: string, p: string, v: string)
    requires p != "" && p != v
    ensures ReplaceAll(s, p, v) == s <==> !Contains(s, p)
    ensures |v| < |p| ==> |ReplaceAll(s, p, v)| <= |s|
    ensures |v| > |p| ==> |ReplaceAll(s, p, v)| >= |s|
    ensures |v| == |p| ==> |ReplaceAll(s, p, v)| == |s|
    decreases |s|
  {
    if s == "" {
    } else if p <= s {
      ReplaceNothing(s[|p|..], p, v);
      assert ReplaceAll(s, p, v)[..|v|] == v && s[..|p|] == p;
    } else {
      ReplaceNothing(s[1..], p, v);
      assert ReplaceAll(s, p, v)[1..] == ReplaceAll(s[1..], p, v);
    }
  }

  lemma {:induction false} ReplaceNone(s: string, p: string, v: string)
    requires p != "" && !Contains(s, p)
    ensures ReplaceAll(s, p, v) == s
  {
    if s != "" {
      ReplaceNone(s[1..], p, v);
    }
  }

  lemma ReplaceWhole(p: string, v: string)
    requires p != ""
    ensures ReplaceAll(p, p, v) == v
  {
    ReplaceHere(p, "", v);
    assert p + "" == p && v + "" == v;
  }

  // Where no segment shows `p`, the whole does not.
  lemma {:induction false} NowhereShown(layout: seq<Segment>, done: map<string, string>, p: string)
    requires p != "" && Seamless(layout, done, p)
    requires forall j :: 0 <= j < |layout| ==> !Contains(Shown(layout[j], done), p)
    ensures !Contains(Show(layout, done), p)
  {
    if layout != [] {
      var x, tail := Shown(layout[0], done), layout[1..];
      TailSeamless(layout, done, p);
      forall j | 0 <= j < |tail| ensures !Contains(Shown(tail[j], done), p) {
        assert tail[j] == layout[j + 1];
      }
      NowhereShown(tail, done, p);
      NoStart(x, Show(tail, done), if |layout| > 1 then Shown(layout[1], done) else "", p);
      SkipQuiet(x, Show(tail, done), p);
    }
  }

  // What one segment shows, the whole shows.
  lemma {:induction false} ShownInside(layout: seq<Segment>, done: map<string, string>, j: nat, p: string)
    requires j < |layout| && Contains(Shown(layout[j], done), p)
    ensures Contains(Show(layout, done), p)
  {
    var head, rest := Shown(layout[0], done), Show(layout[1..], done);
    if j == 0 {
      ContainedAround("", head, rest, p);
      assert "" + head + rest == head + rest;
    } else {
      assert layout[1..][j - 1] == layout[j];
      ShownInside(layout[1..], done, j - 1, p);
      ContainedAround(head, rest, "", p);
      assert head + rest + "" == head + rest;
    }
  }

  lemma ContainedAround(before: string, s: string, after: string, p: string)
    requires Contains(s, p)
    ensures Contains(before + s + after, p)
  {
    ContainsMeaning(s, p);
    var i :| OccursAt(s, p, i);
    var all := before + s + after;
    assert all[|before| + i..] == s[i..] + after;
    assert OccursAt(all, p, |before| + i);
    ContainsMeaning(all, p);
  }

  // ---------------------------------------------------------------- all replacements

  // A placeholder that is not there, or one that is left at the end.
  datatype RenderError = Missing(placeholder: string) | Unresolved(placeholder: string)

  function ReplaceInOrder(s: string, order: seq<string>, values: map<string, string>): Result<string, RenderError>
    requires forall p :: p in order ==> p != "" && p in values
    decreases |order|
  {
    if order == [] then Ok(s)
    else if !Contains(s, order[0]) then Err(Missing(order[0]))
    else
      assert forall p :: p in order[1..] ==> p in order;
      ReplaceInOrder(ReplaceAll(s, order[0], values[order[0]]), order[1..], values)
  }

  // Every placeholder has a hole.
  predicate Complete(layout: seq<Segment>, order: seq<string>) {
    forall i :: 0 <= i < |order| ==> Hole(order[i]) in layout
  }

  lemma {:induction false} ReplaceRest(layout: seq<Segment>, values: map<string, string>, done: map<string, string>, order: seq<string>)
    requires WellFormed(layout, values) && Within(done, values) && NoDuplicates(order)
    requires forall p :: p in values <==> p in done || p in order
    requires forall p :: p in order ==> p !in done
    ensures forall p :: p in order ==> p != "" && p in values
    ensures var r := ReplaceInOrder(Show(layout, done), order, values);
            if Complete(layout, order) then r == Ok(Show(layout, values)) else r.Err?
    decreases |order|
  {
    assert forall p :: p in order ==> p != "" && p in values;
    if order == [] {
      assert done == values;
    } else {
      var p := order[0];
      assert order == [p] + order[1..];
      FoundIffHole(layout, values, done, p);
      if Hole(p) in layout {
        ReplaceFills(layout, values, done, p);
        forall q ensures q in order <==> q == p || q in order[1..] {
          assert q in [p] + order[1..] <==> q == p || q in order[1..];
        }
        assert p !in order[1..];
        ReplaceRest(layout, values, done[p := values[p]], order[1..]);
        assert Complete(layout, order) <==> Complete(layout, order[1..]);
      }
    }
  }

  // Whatever the order, replacing one after another is replacing all at once.
  lemma OrderDoesNotMatter(layout: seq<Segment>, values: map<string, string>, order: seq<string>)
    requires WellFormed(layout, values) && Enumerates(order, values.Keys)
    ensures forall p :: p in order ==> p != "" && p in values
    ensures var r := ReplaceInOrder(Show(layout, map[]), order, values);
            if forall p :: p in values ==> Hole(p) in layout then r == Ok(Show(layout, values)) else r.Err?
  {
    assert forall p :: p in order <==> p in Elements(order);
    ReplaceRest(layout, values, map[], order);
    if p :| p in values && Hole(p) !in layout {
      var i :| 0 <= i < |order| && order[i] == p;
    }
  }

  // The usual place of a placeholder, between quotes that it does not hold
  // itself, is well formed whatever is put there.
  lemma QuotedPlaceholder(quote: char, p: string, v: string)
    requires p != "" && quote !in p
    ensures WellFormed([Fixed([quote]), Hole(p), Fixed([quote])], map[p := v])
  {
    var values := map[p := v];
    assert p[0] in p && p[0] != quote;
    NotInQuote(quote, p);
    assert Quiet(Fixed([quote]), values, p);
    forall y ensures CleanSeam([quote], y, p) {
      assert forall n :: 0 < n < |p| ==> p[..n][0] == p[0];
    }
    assert Parted(Fixed([quote]), Hole(p), values, p);
  }

  lemma NotInQuote(quote: char, p: string)
    requires p != "" && p[0] != quote
    ensures !Contains([quote], p)
  {
    assert [quote][1..] == "";
    assert !(p <= [quote]);
  }
}
