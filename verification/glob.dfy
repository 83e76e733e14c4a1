/** Test filters: colon-separated glob patterns, with a negative part after the
    first dash. Strings are the characters before the terminating NUL. */
module Globs {

  // ---------------------------------------------------------------------
  // What a pattern means

  function Joined(parts: seq<string>): string {
    if parts == [] then "" else parts[0] + Joined(parts[1..])
  }

  /** What one pattern character may stand for. */
  predicate Fits(p: char, part: string) {
    if p == '*' then true else if p == '?' then |part| == 1 else part == [p]
  }

  ghost predicate Aligns(piece: string, s: string, parts: seq<string>) {
    |parts| == |piece| && Joined(parts) == s && forall i | 0 <= i < |piece| :: Fits(piece[i], parts[i])
  }

  /** The string can be cut into one part for each character of the pattern. */
  ghost predicate Denotes(piece: string, s: string) {
    exists parts :: Aligns(piece, s, parts)
  }

  /** The characters before the first occurrence of a separator. */
  function Before(s: string, sep: char): string {
    if s == "" || s[0] == sep then "" else [s[0]] + Before(s[1..], sep)
  }

  function Pieces(filter: string): seq<string>
    decreases |filter|
  {
    var piece := Before(filter, ':');
    BeforeIsPrefix(filter, ':');
    if |piece| == |filter| then [piece] else [piece] + Pieces(filter[|piece| + 1..])
  }

  lemma {:induction false} BeforeIsPrefix(s: string, sep: char)
    ensures |Before(s, sep)| <= |s| && Before(s, sep) == s[..|Before(s, sep)|]
    ensures sep !in Before(s, sep)
    ensures |Before(s, sep)| < |s| ==> s[|Before(s, sep)|] == sep
  {
    if s != "" && s[0] != sep {
      BeforeIsPrefix(s[1..], sep);
    }
  }

  /** The pieces of a filter, put together again. */
  ghost function JoinedBy(pieces: seq<string>, sep: char): string {
    if pieces == [] then "" else if |pieces| == 1 then pieces[0] else pieces[0] + [sep] + JoinedBy(pieces[1..], sep)
  }

  /** The pieces hold no colon, and with colons between them make up the
      filter. */
  lemma {:induction false} PiecesJoin(filter: string)
    ensures JoinedBy(Pieces(filter), ':') == filter
    ensures forall i | 0 <= i < |Pieces(filter)| :: ':' !in Pieces(filter)[i]
    decreases |filter|
  {
    var piece := Before(filter, ':');
    BeforeIsPrefix(filter, ':');
    if |piece| < |filter| {
      var rest := Pieces(filter[|piece| + 1..]);
      PiecesJoin(filter[|piece| + 1..]);
      var all := Pieces(filter);
      assert all[1..] == rest && all[0] == piece;
      assert forall i | 0 < i < |all| :: all[i] == rest[i - 1];
      assert filter == piece + [':'] + filter[|piece| + 1..];
    }
  }

  lemma {:induction false} BeforeEnds(s: string, rest: string, sep: char)
    requires sep !in s && (rest == "" || rest[0] == sep)
    ensures Before(s + rest, sep) == s
  {
    if s != "" {
      assert (s + rest)[1..] == s[1..] + rest;
      BeforeEnds(s[1..], rest, sep);
    } else {
      assert s + rest == rest;
    }
  }

  ghost predicate SomePiece(filter: string, name: string) {
    exists i :: 0 <= i < |Pieces(filter)| && Denotes(Pieces(filter)[i], name)
  }

  // ---------------------------------------------------------------------
  // Matching one pattern

  /** The first ':' or the end of the string ends the pattern. */
  predicate PatternMatchesString(pattern: string, s: string)
    decreases |pattern|, |s|
  {
    if pattern == "" || pattern[0] == ':' then s == ""
    else if pattern[0] == '?' then s != "" && PatternMatchesString(pattern[1..], s[1..])
    else if pattern[0] == '*' then
      (s != "" && PatternMatchesString(pattern, s[1..])) || PatternMatchesString(pattern[1..], s)
    else s != "" && pattern[0] == s[0] && PatternMatchesString(pattern[1..], s[1..])
  }

  lemma AlignsCons(p: char, piece: string, part: string, s: string, parts: seq<string>)
    requires Aligns(piece, s, parts) && Fits(p, part)
    ensures Aligns([p] + piece, part + s, [part] + parts)
  {
  }

  lemma {:induction false} MatchAligns(pattern: string, s: string) returns (parts: seq<string>)
    requires PatternMatchesString(pattern, s)
    ensures Aligns(Before(pattern, ':'), s, parts)
    decreases |pattern|, |s|
  {
    if pattern == "" || pattern[0] == ':' {
      parts := [];
    } else if pattern[0] == '*' && s != "" && PatternMatchesString(pattern, s[1..]) {
      var rest := MatchAligns(pattern, s[1..]);
      var longer := [s[0]] + rest[0];
      assert s == longer + Joined(rest[1..]);
      parts := [longer] + rest[1..];
    } else {
      var n := if pattern[0] == '*' then 0 else 1;
      var rest := MatchAligns(pattern[1..], s[n..]);
      AlignsCons(pattern[0], Before(pattern[1..], ':'), s[..n], s[n..], rest);
      assert s[..n] + s[n..] == s;
      parts := [s[..n]] + rest;
    }
  }

  lemma {:induction false} AlignedMatches(pattern: string, s: string, parts: seq<string>)
    requires Aligns(Before(pattern, ':'), s, parts)
    ensures PatternMatchesString(pattern, s)
    decreases |pattern|, |s|
  {
    if pattern != "" && pattern[0] != ':' {
      assert Fits(pattern[0], parts[0]);
      assert Before(pattern, ':')[1..] == Before(pattern[1..], ':');
      if pattern[0] == '*' && parts[0] != "" {
        var shorter := [parts[0][1..]] + parts[1..];
        assert s[1..] == Joined(shorter);
        AlignedMatches(pattern, s[1..], shorter);
      } else {
        assert s == parts[0] + Joined(parts[1..]);
        assert s[|parts[0]|..] == Joined(parts[1..]);
        AlignedMatches(pattern[1..], s[|parts[0]|..], parts[1..]);
      }
    }
  }

  /** The recursive matcher is sound and complete for the first piece. */
  lemma MatchesExactly(pattern: string, s: string)
    ensures PatternMatchesString(pattern, s) <==> Denotes(Before(pattern, ':'), s)
  {
    if PatternMatchesString(pattern, s) {
      var parts := MatchAligns(pattern, s);
    }
    if parts :| Aligns(Before(pattern, ':'), s, parts) {
      AlignedMatches(pattern, s, parts);
    }
  }

  // ---------------------------------------------------------------------
  // Patterns made of a literal and stars

  predicate Literal(s: string) {
    '*' !in s && '?' !in s && ':' !in s
  }

  lemma {:induction false} LiteralMatches(lit: string, s: string)
    requires Literal(lit)
    ensures PatternMatchesString(lit, s) <==> s == lit
  {
    if lit != "" && s != "" && lit[0] == s[0] {
      LiteralMatches(lit[1..], s[1..]);
      assert lit == [lit[0]] + lit[1..] && s == [s[0]] + s[1..];
    }
  }

  lemma {:induction false} LiteralStarMatches(lit: string, s: string)
    requires Literal(lit)
    ensures PatternMatchesString(lit + "*", s) <==> lit <= s
  {
    if lit == "" {
      assert lit + "*" == "*";
      StarMatches(s);
    } else {
      assert (lit + "*")[1..] == lit[1..] + "*";
      if s != "" {
        LiteralStarMatches(lit[1..], s[1..]);
      }
    }
  }

  lemma {:induction false} StarMatches(s: string)
    ensures PatternMatchesString("*", s)
  {
    if s != "" {
      StarMatches(s[1..]);
    }
  }

  /** A leading star leaves out any beginning. */
  lemma {:induction false} StarThenMatches(pattern: string, s: string)
    ensures PatternMatchesString("*" + pattern, s)
            <==> exists k :: 0 <= k <= |s| && PatternMatchesString(pattern, s[k..])
  {
    var whole := "*" + pattern;
    assert whole[1..] == pattern && s[0..] == s;
    if s != "" {
      StarThenMatches(pattern, s[1..]);
      var tail := s[1..];
      assert forall k | 0 <= k <= |tail| :: tail[k..] == s[k + 1..];
      if k :| 0 <= k <= |tail| && PatternMatchesString(pattern, tail[k..]) {
        assert PatternMatchesString(pattern, s[k + 1..]);
      }
      if k :| 0 < k <= |s| && PatternMatchesString(pattern, s[k..]) {
        assert tail[k - 1..] == s[k..];
      }
    }
  }

  ghost predicate Contains(s: string, part: string) {
    exists k :: 0 <= k <= |s| && part <= s[k..]
  }

  ghost predicate EndsWith(s: string, part: string) {
    exists k :: 0 <= k <= |s| && s[k..] == part
  }

  /** `*lit*` and `*lit`. */
  lemma StarLiteral(lit: string, s: string)
    requires Literal(lit)
    ensures PatternMatchesString("*" + (lit + "*"), s) <==> Contains(s, lit)
    ensures PatternMatchesString("*" + lit, s) <==> EndsWith(s, lit)
  {
    hide PatternMatchesString;
    StarThenMatches(lit + "*", s);
    StarThenMatches(lit, s);
    forall k | 0 <= k <= |s|
      ensures PatternMatchesString(lit + "*", s[k..]) <==> lit <= s[k..]
      ensures PatternMatchesString(lit, s[k..]) <==> s[k..] == lit
    {
      LiteralStarMatches(lit, s[k..]);
      LiteralMatches(lit, s[k..]);
    }
  }

  /** A filter of two pieces. */
  lemma TwoPieces(a: string, b: string, name: string)
    requires ':' !in a && ':' !in b
    ensures SomePiece(a + (":" + b), name) <==> PatternMatchesString(a, name) || PatternMatchesString(b, name)
  {
    hide SomePiece, Denotes, PatternMatchesString;
    var filter := a + (":" + b);
    BeforeEnds(a, ":" + b, ':');
    BeforeEnds(a, "", ':');
    BeforeEnds(b, "", ':');
    assert a + "" == a && b + "" == b && filter[|a| + 1..] == b;
    hide Before;
    PiecesStep(filter, name);
    PiecesStep(b, name);
    MatchesExactly(a, name);
    MatchesExactly(b, name);
  }

  // ---------------------------------------------------------------------
  // Filters

  lemma PiecesStep(filter: string, name: string)
    ensures var n := |Before(filter, ':')|;
            && n <= |filter|
            && (SomePiece(filter, name)
                <==> Denotes(Before(filter, ':'), name) || (n < |filter| && SomePiece(filter[n + 1..], name)))
  {
    BeforeIsPrefix(filter, ':');
    hide Denotes;
    var n, ps := |Before(filter, ':')|, Pieces(filter);
    assert ps[0] == Before(filter, ':');
    if n < |filter| {
      var rest := Pieces(filter[n + 1..]);
      assert forall i | 0 <= i < |rest| :: ps[i + 1] == rest[i];
      assert forall i | 0 < i < |ps| :: ps[i] == rest[i - 1];
    }
  }

  method FindChar(s: string, sep: char) returns (i: nat)
    ensures i == |Before(s, sep)| <= |s|
  {
    i := 0;
    assert s[0..] == s;
    while i < |s| && s[i] != sep
      invariant i <= |s|
      invariant |Before(s, sep)| == i + |Before(s[i..], sep)|
    {
      assert s[i..][1..] == s[i + 1..];
      i := i + 1;
    }
  }

  /** `MatchesFilter`: true exactly when some colon-separated piece matches the
      whole name. */
  method MatchesFilter(name: string, filter: string) returns (b: bool)
    ensures b <==> SomePiece(filter, name)
  {
    hide SomePiece, Denotes, PatternMatchesString;
    var cur := filter;
    while true
      invariant SomePiece(filter, name) <==> SomePiece(cur, name)
      decreases |cur|
    {
      MatchesExactly(cur, name);
      PiecesStep(cur, name);
      if PatternMatchesString(cur, name) {
        return true;
      }
      var colon := FindChar(cur, ':');
      if colon == |cur| {
        return false;
      }
      cur := cur[colon + 1..];
    }
    b := false;
  }

  /** The parts of a filter before and after its first dash; nothing before the
      dash means everything. */
  ghost function Positive(filter: string): string {
    var p := Before(filter, '-');
    if p == "" && |filter| > 0 then "*" else p
  }

  ghost function Negative(filter: string): string {
    BeforeIsPrefix(filter, '-');
    var n := |Before(filter, '-')|;
    if n < |filter| then filter[n + 1..] else ""
  }

  ghost predicate Selected(fullName: string, filter: string) {
    SomePiece(Positive(filter), fullName) && !SomePiece(Negative(filter), fullName)
  }

  method FilterMatchesTest(testCase: string, test: string, filter: string) returns (b: bool)
    ensures b <==> Selected(testCase + "." + test, filter)
  {
    var fullName := testCase + "." + test;
    var dash := FindChar(filter, '-');
    BeforeIsPrefix(filter, '-');
    var positive, negative;
    if dash == |filter| {
      positive, negative := filter, "";
    } else {
      positive, negative := filter[..dash], filter[dash + 1..];
      if positive == "" {
        positive := "*";
      }
    }
    assert positive == Positive(filter) && negative == Negative(filter);
    b := MatchesFilter(fullName, positive);
    if b {
      var excluded := MatchesFilter(fullName, negative);
      b := !excluded;
    }
  }

  /** An empty negative part excludes no test, and an empty positive part
      before a dash lets every test through. */
  lemma EmptyParts(fullName: string)
    requires fullName != ""
    ensures !SomePiece("", fullName)
    ensures SomePiece("*", fullName)
  {
    MatchesExactly("", fullName);
    PiecesStep("", fullName);
    assert [fullName][1..] == [] && Joined([fullName]) == fullName + "";
    assert Aligns("*", fullName, [fullName]);
    assert Before("*", ':') == "*";
    PiecesStep("*", fullName);
  }
}
