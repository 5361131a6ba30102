/** The CORS origin matcher: exact entries, and globs compiled to regular expressions. */
module CorsMatcher {
  import opened AsciiText
  import opened Wrappers

  /** What a regular-expression engine reads: a literal, [^.]*, any character, or something that no glob needs. */
  datatype Token = Literal(c: char) | Segment | Any | Unreadable

  predicate IsMeta(c: char) {
    c in ".+?^${}()|[]\\"
  }

  // ---------- compilation ----------

  /** A backslash in front of every metacharacter; the star is left alone. */
  function EscapeMeta(p: string): string {
    if p == [] then [] else (if IsMeta(p[0]) then ['\\', p[0]] else [p[0]]) + EscapeMeta(p[1..])
  }

  const SEGMENT := "[^.]*"

  /** Every star becomes one dot-free segment. */
  function ReplaceStars(s: string): string {
    if s == [] then [] else (if s[0] == '*' then SEGMENT else [s[0]]) + ReplaceStars(s[1..])
  }

  function RegexSource(pattern: string): string {
    ReplaceStars(EscapeMeta(pattern))
  }

  /** The characters that mean something in a regular expression. */
  predicate IsSyntax(c: char) {
    c in {'^', '$', '\\', '.', '*', '+', '?', '(', ')', '[', ']', '{', '}', '|'}
  }

  /** How a regular-expression engine reads a source: a backslash makes a syntax character literal, a dot that is not
      escaped stands for any character, and of the rest of the syntax only the segment is of interest. */
  function Parse(source: string): seq<Token> {
    if source == [] then []
    else if source[0] == '\\' && |source| >= 2 then
      [if IsSyntax(source[1]) then Literal(source[1]) else Unreadable] + Parse(source[2..])
    else if StartsWith(source, SEGMENT) then [Segment] + Parse(source[5..])
    else
      [if source[0] == '.' then Any else if IsSyntax(source[0]) then Unreadable else Literal(source[0])] + Parse(source[1..])
  }

  /** The anchored match. */
  ghost predicate Matches(tokens: seq<Token>, s: string) {
    if tokens == [] then s == []
    else match tokens[0]
      case Literal(c) => s != [] && s[0] == c && Matches(tokens[1..], s[1..])
      case Any => s != [] && s[0] != '\n' && s[0] != '\r' && Matches(tokens[1..], s[1..])
      case Unreadable => false
      case Segment => exists k :: 0 <= k <= |s| && '.' !in s[..k] && Matches(tokens[1..], s[k..])
  }

  datatype Matcher = Exact(origin: string) | Glob(source: string)

  ghost predicate Test(m: Matcher, origin: string) {
    match m
    case Exact(o) => origin == o
    case Glob(source) => Matches(Parse(source), origin)
  }

  function BuildCorsMatchers(patterns: seq<string>): (r: seq<Matcher>)
    ensures |r| == |patterns|
    ensures forall i :: 0 <= i < |r| ==>
      r[i] == if '*' in patterns[i] then Glob(RegexSource(patterns[i])) else Exact(patterns[i])
  {
    seq(|patterns|, i requires 0 <= i < |patterns| =>
      if '*' in patterns[i] then Glob(RegexSource(patterns[i])) else Exact(patterns[i]))
  }

  ghost predicate IsOriginAllowed(matchers: seq<Matcher>, origin: Option<string>) {
    origin.None? || origin.value == "" || exists m :: m in matchers && Test(m, origin.value)
  }

  // ---------- the compiled expression means the glob ----------

  function TokenOf(c: char): Token {
    if c == '*' then Segment else Literal(c)
  }

  function Tokens(p: string): (r: seq<Token>)
    ensures |r| == |p| && forall i :: 0 <= i < |p| ==> r[i] == TokenOf(p[i])
  {
    seq(|p|, i requires 0 <= i < |p| => TokenOf(p[i]))
  }

  /** The regular-expression source of one pattern character. */
  function SourceOf(c: char): string {
    if IsMeta(c) then ['\\', c] else if c == '*' then SEGMENT else [c]
  }

  lemma SourceUnfolds(p: string)
    requires p != []
    ensures RegexSource(p) == SourceOf(p[0]) + RegexSource(p[1..])
  {
    var piece := if IsMeta(p[0]) then ['\\', p[0]] else [p[0]];
    assert EscapeMeta(p) == piece + EscapeMeta(p[1..]);
    ReplaceAppend(piece, EscapeMeta(p[1..]));
    assert ReplaceStars(piece) == SourceOf(p[0]) by { PieceSource(p[0]); }
  }

  lemma {:induction false} ReplaceAppend(a: string, b: string)
    ensures ReplaceStars(a + b) == ReplaceStars(a) + ReplaceStars(b)
  {
    if a == [] {
      assert a + b == b;
    } else {
      assert (a + b)[1..] == a[1..] + b;
      ReplaceAppend(a[1..], b);
    }
  }

  lemma PieceSource(c: char)
    ensures ReplaceStars(if IsMeta(c) then ['\\', c] else [c]) == SourceOf(c)
  {
    if IsMeta(c) {
      assert ['\\', c][1..] == [c];
      assert ReplaceStars([c]) == [c];
    }
  }

  lemma {:induction false} ParseOne(c: char, rest: string)
    ensures Parse(SourceOf(c) + rest) == [TokenOf(c)] + Parse(rest)
  {
    var s := SourceOf(c) + rest;
    if IsMeta(c) {
      assert s[2..] == rest;
    } else if c == '*' {
      assert s[..5] == SEGMENT && s[5..] == rest;
    } else {
      assert s[1..] == rest && s[0] == c && c != '[';
      assert |s| >= 5 ==> s[..5][0] == c;
    }
  }

  /** Escaping is right: the engine reads back the pattern, `*` as one segment and all else literally. */
  lemma {:induction false} CompileCorrect(p: string)
    ensures Parse(RegexSource(p)) == Tokens(p)
  {
    if p != [] {
      SourceUnfolds(p);
      ParseOne(p[0], RegexSource(p[1..]));
      CompileCorrect(p[1..]);
      assert Tokens(p) == [TokenOf(p[0])] + Tokens(p[1..]);
    }
  }

  // ---------- what a glob accepts ----------

  function Stars(p: string): nat {
    if p == [] then 0 else (if p[0] == '*' then 1 else 0) + Stars(p[1..])
  }

  /** The pattern with its stars replaced, in order, by the given texts. */
  function Substitute(p: string, fills: seq<string>): string
    requires |fills| == Stars(p)
  {
    if p == [] then []
    else if p[0] == '*' then fills[0] + Substitute(p[1..], fills[1..])
    else [p[0]] + Substitute(p[1..], fills)
  }

  ghost predicate DotFree(fills: seq<string>) {
    forall i :: 0 <= i < |fills| ==> '.' !in fills[i]
  }

  ghost predicate Arises(p: string, s: string) {
    exists fills :: |fills| == Stars(p) && DotFree(fills) && s == Substitute(p, fills)
  }

  lemma {:induction false} MatchFills(p: string, s: string) returns (fills: seq<string>)
    requires Matches(Tokens(p), s)
    ensures |fills| == Stars(p) && DotFree(fills) && s == Substitute(p, fills)
  {
    if p == [] {
      fills := [];
    } else {
      assert Tokens(p)[1..] == Tokens(p[1..]);
      if p[0] == '*' {
        var k :| 0 <= k <= |s| && '.' !in s[..k] && Matches(Tokens(p)[1..], s[k..]);
        var rest := MatchFills(p[1..], s[k..]);
        fills := [s[..k]] + rest;
        assert fills[1..] == rest;
      } else {
        fills := MatchFills(p[1..], s[1..]);
      }
    }
  }

  lemma {:induction false} FillsMatch(p: string, fills: seq<string>)
    requires |fills| == Stars(p) && DotFree(fills)
    ensures Matches(Tokens(p), Substitute(p, fills))
  {
    if p != [] {
      var s := Substitute(p, fills);
      assert Tokens(p)[1..] == Tokens(p[1..]);
      if p[0] == '*' {
        FillsMatch(p[1..], fills[1..]);
        var k := |fills[0]|;
        assert s[..k] == fills[0] && s[k..] == Substitute(p[1..], fills[1..]);
      } else {
        FillsMatch(p[1..], fills);
        assert s[1..] == Substitute(p[1..], fills);
      }
    }
  }

  /** A glob accepts exactly the origins that arise by replacing each star with a dot-free text. */
  lemma GlobAccepts(p: string, s: string)
    ensures Test(Glob(RegexSource(p)), s) <==> Arises(p, s)
  {
    CompileCorrect(p);
    if Matches(Tokens(p), s) {
      var fills := MatchFills(p, s);
    }
    if Arises(p, s) {
      var fills :| |fills| == Stars(p) && DotFree(fills) && s == Substitute(p, fills);
      FillsMatch(p, fills);
    }
  }

  function Dots(s: string): nat {
    if s == [] then 0 else (if s[0] == '.' then 1 else 0) + Dots(s[1..])
  }

  lemma {:induction false} DotsAppend(a: string, b: string)
    ensures Dots(a + b) == Dots(a) + Dots(b)
    ensures '.' !in a ==> Dots(a) == 0
  {
    if a == [] {
      assert a + b == b;
    } else {
      DotsAppend(a[1..], b);
      assert (a + b)[1..] == a[1..] + b;
    }
  }

  lemma {:induction false} SubstituteDots(p: string, fills: seq<string>)
    requires |fills| == Stars(p) && DotFree(fills)
    ensures Dots(Substitute(p, fills)) == Dots(p)
  {
    if p != [] {
      if p[0] == '*' {
        SubstituteDots(p[1..], fills[1..]);
        DotsAppend(fills[0], Substitute(p[1..], fills[1..]));
      } else {
        SubstituteDots(p[1..], fills);
      }
    }
  }

  /** The literal text before the first star and after the last one. */
  lemma {:induction false} SubstituteStart(a: string, b: string, fills: seq<string>)
    requires '*' !in a && |fills| == Stars(a + b)
    ensures StartsWith(Substitute(a + b, fills), a)
  {
    if a != [] {
      assert (a + b)[1..] == a[1..] + b;
      SubstituteStart(a[1..], b, fills);
    }
  }

  lemma EndsAfter(front: string, s: string, b: string)
    requires EndsWith(s, b)
    ensures EndsWith(front + s, b)
  {
    assert (front + s)[|front + s| - |b|..] == s[|s| - |b|..];
  }

  lemma {:induction false} SubstituteEnd(a: string, b: string, fills: seq<string>)
    requires '*' !in b && |fills| == Stars(a + b)
    ensures EndsWith(Substitute(a + b, fills), b)
  {
    if a == [] {
      assert a + b == b;
      SubstituteLiteral(b, fills);
    } else {
      assert (a + b)[1..] == a[1..] + b;
      if a[0] == '*' {
        SubstituteEnd(a[1..], b, fills[1..]);
        EndsAfter(fills[0], Substitute(a[1..] + b, fills[1..]), b);
      } else {
        SubstituteEnd(a[1..], b, fills);
        EndsAfter([a[0]], Substitute(a[1..] + b, fills), b);
      }
    }
  }

  lemma {:induction false} SubstituteLiteral(p: string, fills: seq<string>)
    requires '*' !in p && |fills| == Stars(p)
    ensures Substitute(p, fills) == p
  {
    if p != [] {
      SubstituteLiteral(p[1..], fills);
      assert p == [p[0]] + p[1..];
    }
  }

  /** An accepted origin has exactly the pattern's dots and its literal start and end. */
  lemma {:induction false} GlobKeepsShape(a: string, mid: string, b: string, s: string)
    requires '*' !in a && '*' !in b && Test(Glob(RegexSource(a + mid + b)), s)
    ensures Dots(s) == Dots(a + mid + b) && StartsWith(s, a) && EndsWith(s, b)
  {
    var p := a + mid + b;
    GlobAccepts(p, s);
    var fills :| |fills| == Stars(p) && DotFree(fills) && s == Substitute(p, fills);
    SubstituteDots(p, fills);
    assert p == a + (mid + b);
    SubstituteStart(a, mid + b, fills);
    SubstituteEnd(a + mid, b, fills);
  }

  /** The list accepts an origin exactly when there is none, or some entry stands for it. */
  lemma ListAccepts(patterns: seq<string>, origin: Option<string>)
    ensures IsOriginAllowed(BuildCorsMatchers(patterns), origin) <==>
            origin.None? || origin.value == "" ||
            exists p :: p in patterns && (if '*' in p then Arises(p, origin.value) else origin.value == p)
  {
    if origin.Some? {
      var matchers := BuildCorsMatchers(patterns);
      forall i | 0 <= i < |patterns|
        ensures Test(matchers[i], origin.value) <==>
                if '*' in patterns[i] then Arises(patterns[i], origin.value) else origin.value == patterns[i]
      {
        GlobAccepts(patterns[i], origin.value);
      }
      if m :| m in matchers && Test(m, origin.value) {
        var i :| 0 <= i < |matchers| && matchers[i] == m;
        assert patterns[i] in patterns;
      }
      if p :| p in patterns && (if '*' in p then Arises(p, origin.value) else origin.value == p) {
        var i :| 0 <= i < |patterns| && patterns[i] == p;
        assert matchers[i] in matchers;
      }
    }
  }
}
