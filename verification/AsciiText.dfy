/** String operations of the source language on ASCII text. */
module AsciiText {

  predicate IsSpace(c: char) {
    c == ' ' || '\t' <= c <= '\r'
  }

  predicate IsDigit(c: char) {
    '0' <= c <= '9'
  }

  function LowerChar(c: char): char {
    if 'A' <= c <= 'Z' then c - 'A' + 'a' else c
  }

  function Lower(s: string): (r: string)
    ensures |r| == |s| && forall i :: 0 <= i < |s| ==> r[i] == LowerChar(s[i])
  {
    seq(|s|, i requires 0 <= i < |s| => LowerChar(s[i]))
  }

  function Upper(s: string): string {
    seq(|s|, i requires 0 <= i < |s| => if 'a' <= s[i] <= 'z' then s[i] - 'a' + 'A' else s[i])
  }

  function TrimStart(s: string): (r: string)
    ensures |r| <= |s| && (r != [] ==> !IsSpace(r[0]))
  {
    if s != [] && IsSpace(s[0]) then TrimStart(s[1..]) else s
  }

  function TrimEnd(s: string): (r: string)
    ensures |r| <= |s| && (r != [] ==> r[0] == s[0] && !IsSpace(r[|r| - 1]))
  {
    if s != [] && IsSpace(s[|s| - 1]) then TrimEnd(s[..|s| - 1]) else s
  }

  function Trim(s: string): string {
    TrimEnd(TrimStart(s))
  }

  predicate Trimmed(s: string) {
    s == [] || (!IsSpace(s[0]) && !IsSpace(s[|s| - 1]))
  }

  predicate NoSpace(s: string) {
    forall i :: 0 <= i < |s| ==> !IsSpace(s[i])
  }

  predicate StartsWith(s: string, p: string) {
    |p| <= |s| && s[..|p|] == p
  }

  predicate EndsWith(s: string, p: string) {
    |p| <= |s| && s[|s| - |p|..] == p
  }

  /** `replace(/\D/g, '')`. */
  function Digits(s: string): (r: string) {
    if s == [] then [] else (if IsDigit(s[0]) then [s[0]] else []) + Digits(s[1..])
  }

  /** Whether t occurs in s. */
  predicate Contains(s: string, t: string) {
    StartsWith(s, t) || (s != [] && Contains(s[1..], t))
  }

  // ---------- laws ----------

  lemma TrimIsTrimmed(s: string)
    ensures Trimmed(Trim(s)) && (Trimmed(s) ==> Trim(s) == s)
  {
    var t := TrimStart(s);
    assert TrimEnd(t) != [] ==> TrimEnd(t)[0] == t[0];
  }

  lemma {:induction false} TrimStartSuffix(s: string)
    ensures TrimStart(s) == s[|s| - |TrimStart(s)|..]
  {
    if s != [] && IsSpace(s[0]) { TrimStartSuffix(s[1..]); }
  }

  lemma LowerIdempotent(s: string)
    ensures Lower(Lower(s)) == Lower(s)
  {
  }

  predicate IsLower(s: string) {
    forall i :: 0 <= i < |s| ==> LowerChar(s[i]) == s[i]
  }

  lemma LowerIsLower(s: string)
    ensures IsLower(Lower(s)) && (IsLower(s) ==> Lower(s) == s)
  {
  }

  lemma LowerAppend(a: string, b: string)
    ensures Lower(a + b) == Lower(a) + Lower(b)
  {
  }

  lemma LowerKeepsSpaces(c: char)
    ensures IsSpace(LowerChar(c)) == IsSpace(c) && IsDigit(LowerChar(c)) == IsDigit(c)
    ensures IsDigit(c) || IsSpace(c) ==> LowerChar(c) == c
  {
  }

  lemma {:induction false} LowerTrimStart(s: string)
    ensures TrimStart(Lower(s)) == Lower(TrimStart(s))
  {
    if s != [] {
      LowerKeepsSpaces(s[0]);
      assert Lower(s)[1..] == Lower(s[1..]);
      LowerTrimStart(s[1..]);
    }
  }

  lemma {:induction false} LowerTrimEnd(s: string)
    ensures TrimEnd(Lower(s)) == Lower(TrimEnd(s))
  {
    if s != [] {
      var n := |s| - 1;
      LowerKeepsSpaces(s[n]);
      assert Lower(s)[..n] == Lower(s[..n]);
      LowerTrimEnd(s[..n]);
    }
  }

  /** Trimming and lower-casing commute. */
  lemma LowerTrim(s: string)
    ensures Trim(Lower(s)) == Lower(Trim(s))
  {
    LowerTrimStart(s);
    LowerTrimEnd(TrimStart(s));
  }

  lemma TrimmedLower(s: string)
    requires Trimmed(s)
    ensures Trimmed(Lower(s))
  {
    if s != [] {
      LowerKeepsSpaces(s[0]);
      LowerKeepsSpaces(s[|s| - 1]);
    }
  }

  predicate OccursAt(s: string, t: string, k: nat) {
    k + |t| <= |s| && s[k..k + |t|] == t
  }

  lemma {:induction false} ContainsMeans(s: string, t: string)
    ensures Contains(s, t) <==> exists k: nat :: OccursAt(s, t, k)
  {
    assert StartsWith(s, t) <==> OccursAt(s, t, 0);
    if s != [] {
      ContainsMeans(s[1..], t);
      forall k: nat | OccursAt(s[1..], t, k)
        ensures OccursAt(s, t, k + 1)
      {
        assert s[1..][k..k + |t|] == s[k + 1..k + 1 + |t|];
      }
      forall k: nat | OccursAt(s, t, k) && k > 0
        ensures OccursAt(s[1..], t, k - 1)
      {
        assert s[1..][k - 1..k - 1 + |t|] == s[k..k + |t|];
      }
    }
  }

  /** The same character, or the same letter in the other case. */
  predicate SameLetter(c: char, d: char) {
    c == d || ('A' <= c <= 'Z' && d == c + ' ') || ('A' <= d <= 'Z' && c == d + ' ')
  }

  lemma LowerMeans(c: char, d: char)
    ensures LowerChar(c) == LowerChar(d) <==> SameLetter(c, d)
  {
  }

  predicate SameUpToCase(s: string, t: string) {
    |s| == |t| && forall i :: 0 <= i < |s| ==> SameLetter(s[i], t[i])
  }

  lemma LowerSame(s: string, t: string)
    ensures Lower(s) == Lower(t) <==> SameUpToCase(s, t)
  {
    if Lower(s) == Lower(t) {
      assert |s| == |t|;
      forall i | 0 <= i < |s|
        ensures SameLetter(s[i], t[i])
      {
        assert Lower(s)[i] == Lower(t)[i];
        LowerMeans(s[i], t[i]);
      }
    }
  }

  predicate AllDigits(s: string) {
    forall i :: 0 <= i < |s| ==> IsDigit(s[i])
  }

  lemma {:induction false} DigitsAll(s: string)
    ensures AllDigits(Digits(s)) && (AllDigits(s) ==> Digits(s) == s)
  {
    if s != [] {
      DigitsAll(s[1..]);
      assert s == [s[0]] + s[1..];
    }
  }

  /** Decimal digits, most significant first. */
  function Decimal(n: nat): (s: string)
    ensures AllDigits(s) && s != ""
  {
    if n < 10 then [(48 + n) as char] else Decimal(n / 10) + [(48 + n % 10) as char]
  }

  /** The number that a row of digits writes. */
  function DecimalValue(s: string): nat
    requires AllDigits(s)
  {
    if s == "" then 0 else 10 * DecimalValue(s[..|s| - 1]) + (s[|s| - 1] - '0') as nat
  }

  /** The digits of a number write it, and do not start with a needless zero. */
  lemma {:induction false} DecimalReads(n: nat)
    ensures DecimalValue(Decimal(n)) == n && (Decimal(n)[0] == '0' ==> n == 0)
  {
    if n >= 10 {
      DecimalReads(n / 10);
      assert Decimal(n)[..|Decimal(n)| - 1] == Decimal(n / 10);
    }
  }

  lemma {:induction false} DecimalInjective(m: nat, n: nat)
    requires Decimal(m) == Decimal(n)
    ensures m == n
  {
    DecimalReads(m);
    DecimalReads(n);
  }

  /** The same letters in another case. */
  function OtherCase(s: string): string {
    if Lower(s) != s then Lower(s) else Upper(s)
  }

  lemma OtherCaseDiffers(s: string)
    ensures OtherCase(s) != s <==> Lower(s) != Upper(s)
    ensures Lower(OtherCase(s)) == Lower(s)
  {
    assert Lower(Upper(s)) == Lower(s);
    if Lower(s) == s && Upper(s) != s {
    } else if Lower(s) != s {
      var i :| 0 <= i < |s| && Lower(s)[i] != s[i];
      assert Upper(s)[i] != Lower(s)[i];
    }
  }

  /** A text without letters is the only one with its lower case. */
  lemma Caseless(s: string, t: string)
    requires Lower(s) == Upper(s) && Lower(s) == Lower(t)
    ensures s == t
  {
    assert |s| == |t|;
    forall i | 0 <= i < |s|
      ensures s[i] == t[i]
    {
      assert Lower(s)[i] == Upper(s)[i] && Lower(s)[i] == Lower(t)[i];
    }
  }

  lemma SpacesByLower(s: string, t: string, i: nat)
    requires Lower(s) == Lower(t) && i < |s|
    ensures i < |t| && IsSpace(s[i]) == IsSpace(t[i])
  {
    assert |s| == |t| && Lower(s)[i] == Lower(t)[i];
    LowerKeepsSpaces(s[i]);
    LowerKeepsSpaces(t[i]);
  }

  lemma TrimmedByLower(s: string, t: string)
    requires Lower(s) == Lower(t) && Trimmed(s)
    ensures Trimmed(t)
  {
    assert |s| == |t|;
    if s != "" {
      SpacesByLower(s, t, 0);
      SpacesByLower(s, t, |s| - 1);
    }
  }

  // ---------- splitting ----------

  /** `split(c)`: the pieces between the separators; always at least one. */
  function Split(s: string, c: char): (r: seq<string>)
    ensures r != []
  {
    if s == [] then [""] else Attach(s[0], c, Split(s[1..], c))
  }

  /** One more character in front of the pieces: a separator opens a piece, any other joins the first. */
  function Attach(d: char, c: char, pieces: seq<string>): (r: seq<string>)
    requires pieces != []
    ensures r != []
  {
    if d == c then [""] + pieces else [[d] + pieces[0]] + pieces[1..]
  }

  lemma AttachAppend(d: char, c: char, p: seq<string>, q: seq<string>)
    requires p != []
    ensures Attach(d, c, p + q) == Attach(d, c, p) + q
  {
    assert (p + q)[1..] == p[1..] + q;
  }

  /** `filter(Boolean)` on strings. */
  function NonEmpty(pieces: seq<string>): (r: seq<string>)
    ensures forall i :: 0 <= i < |r| ==> r[i] != "" && r[i] in pieces
  {
    if pieces == [] then [] else (if pieces[0] == "" then [] else [pieces[0]]) + NonEmpty(pieces[1..])
  }

  lemma {:induction false} SplitPieces(s: string, c: char)
    ensures forall p :: p in Split(s, c) ==> c !in p
    ensures NoSpace(s) ==> forall p :: p in Split(s, c) ==> NoSpace(p)
  {
    if s != [] {
      var rest := Split(s[1..], c);
      SplitPieces(s[1..], c);
      assert rest == [rest[0]] + rest[1..];
      forall p | p in Split(s, c)
        ensures c !in p && (NoSpace(s) ==> NoSpace(p))
      {
        assert p == "" || p == [s[0]] + rest[0] || p in rest;
        assert rest[0] in rest;
      }
    }
  }

  lemma {:induction false} SplitJoin(a: string, b: string, c: char)
    ensures Split(a + [c] + b, c) == Split(a, c) + Split(b, c)
  {
    var s := a + [c] + b;
    if a == [] {
      assert s[1..] == b;
    } else {
      SplitJoin(a[1..], b, c);
      assert s[0] == a[0] && s[1..] == a[1..] + [c] + b;
      AttachAppend(a[0], c, Split(a[1..], c), Split(b, c));
    }
  }

  lemma {:induction false} NonEmptyAppend(p: seq<string>, q: seq<string>)
    ensures NonEmpty(p + q) == NonEmpty(p) + NonEmpty(q)
  {
    if p == [] {
      assert p + q == q;
    } else {
      NonEmptyAppend(p[1..], q);
      var head := if p[0] == "" then [] else [p[0]];
      assert NonEmpty(p + q) == head + NonEmpty(p[1..] + q) by {
        assert (p + q)[1..] == p[1..] + q && (p + q)[0] == p[0];
      }
      Associative(head, NonEmpty(p[1..]), NonEmpty(q));
    }
  }

  lemma Associative(a: seq<string>, b: seq<string>, c: seq<string>)
    ensures a + (b + c) == (a + b) + c
  {
  }

  lemma AssociativeText(a: string, b: string, c: string)
    ensures a + (b + c) == (a + b) + c
  {
  }

  lemma {:induction false} SplitWhole(s: string, c: char)
    requires c !in s
    ensures Split(s, c) == [s]
  {
    if s != [] {
      SplitWhole(s[1..], c);
      assert s == [s[0]] + s[1..];
    }
  }

  // ---------- words ----------

  /** The pieces between white-space characters; always at least one. */
  function Pieces(s: string): (r: seq<string>)
    ensures r != []
  {
    if s == [] then [""] else Prepend(s[0], Pieces(s[1..]))
  }

  /** One more character in front: white space opens a piece, any other character joins the first. */
  function Prepend(c: char, pieces: seq<string>): (r: seq<string>)
    requires pieces != []
    ensures r != []
  {
    if IsSpace(c) then [""] + pieces else [[c] + pieces[0]] + pieces[1..]
  }

  lemma PrependAppend(c: char, p: seq<string>, q: seq<string>)
    requires p != []
    ensures Prepend(c, p + q) == Prepend(c, p) + q
  {
    assert (p + q)[1..] == p[1..] + q;
  }

  /** The words of a text: its longest stretches without white space. */
  function Words(s: string): seq<string> {
    NonEmpty(Pieces(s))
  }

  lemma {:induction false} PiecesJoin(a: string, c: char, b: string)
    requires IsSpace(c)
    ensures Pieces(a + [c] + b) == Pieces(a) + Pieces(b)
  {
    var s := a + [c] + b;
    if a == [] {
      assert s[1..] == b;
    } else {
      PiecesJoin(a[1..], c, b);
      assert s[0] == a[0] && s[1..] == a[1..] + [c] + b;
      PrependAppend(a[0], Pieces(a[1..]), Pieces(b));
    }
  }

  lemma WordsJoin(a: string, c: char, b: string)
    requires IsSpace(c)
    ensures Words(a + [c] + b) == Words(a) + Words(b)
  {
    PiecesJoin(a, c, b);
    NonEmptyAppend(Pieces(a), Pieces(b));
  }

  lemma {:induction false} TrimStartWords(s: string)
    ensures Words(TrimStart(s)) == Words(s)
  {
    if s != [] && IsSpace(s[0]) {
      TrimStartWords(s[1..]);
      WordsJoin([], s[0], s[1..]);
      assert [] + [s[0]] + s[1..] == s;
      assert Words([]) == [];
    }
  }

  lemma {:induction false} TrimEndWords(s: string)
    ensures Words(TrimEnd(s)) == Words(s)
  {
    if s != [] && IsSpace(s[|s| - 1]) {
      TrimEndWords(s[..|s| - 1]);
      WordsJoin(s[..|s| - 1], s[|s| - 1], []);
      assert s[..|s| - 1] + [s[|s| - 1]] + [] == s;
      assert Words([]) == [];
    }
  }

  /** Trimming keeps the words. */
  lemma TrimWords(s: string)
    ensures Words(Trim(s)) == Words(s)
  {
    TrimStartWords(s);
    TrimEndWords(TrimStart(s));
  }

  /** The words with single blanks between them. */
  function JoinWords(words: seq<string>): string {
    if words == [] then "" else if |words| == 1 then words[0] else words[0] + " " + JoinWords(words[1..])
  }

  lemma {:induction false} OneWord(s: string)
    requires NoSpace(s)
    ensures Pieces(s) == [s] && Words(s) == if s == "" then [] else [s]
  {
    if s != [] {
      OneWord(s[1..]);
      assert s == [s[0]] + s[1..];
    }
  }
}
