/** The key under which search results are cached, and exactly which queries it serves right. */
module SearchKey {
  import opened AsciiText
  import opened Normalization
  import opened RegistryLifecycle
  import opened RegistrySearch
  import opened Wrappers

  const SEARCH_PREFIX := "registry:search:"

  /** The search text as it enters the key. */
  function KeyText(query: Query): (s: string)
    ensures |s| == |Trim(Text(query.q))|
  {
    Lower(Trim(Text(query.q)))
  }

  /** The parts of the key, before they are joined by bars. */
  function Parts(query: Query): seq<string> {
    [SEARCH_PREFIX,
     "q=" + KeyText(query),
     "t=" + Text(query.kind),
     "c=" + Text(query.category),
     "p=" + Decimal(Page(query)),
     "l=" + Decimal(Limit(query))]
  }

  function Join(parts: seq<string>, c: char): string
    requires parts != []
  {
    if |parts| == 1 then parts[0] else parts[0] + [c] + Join(parts[1..], c)
  }

  function CacheKey(query: Query): string {
    Join(Parts(query), '|')
  }

  // ---------- the shape of a key ----------

  function Glue(s: string, t: string): string {
    s + ['|'] + t
  }

  lemma GlueAssociative(s: string, t: string, u: string)
    ensures Glue(Glue(s, t), u) == Glue(s, Glue(t, u))
  {
  }

  lemma {:induction false} JoinCons(s: string, rest: seq<string>)
    requires rest != []
    ensures Join([s] + rest, '|') == Glue(s, Join(rest, '|'))
  {
    assert ([s] + rest)[1..] == rest;
  }

  lemma {:induction false} JoinSix(a: string, b: string, c: string, d: string, e: string, f: string)
    ensures Join([a, b, c, d, e, f], '|') == Glue(a, Glue(b, Glue(c, Glue(d, Glue(e, f)))))
  {
    assert [a, b, c, d, e, f] == [a] + ([b] + ([c] + ([d] + ([e] + [f]))));
    JoinCons(e, [f]);
    JoinCons(d, [e] + [f]);
    JoinCons(c, [d] + ([e] + [f]));
    JoinCons(b, [c] + ([d] + ([e] + [f])));
    JoinCons(a, [b] + ([c] + ([d] + ([e] + [f]))));
  }

  /** The part of the key that holds the three texts. */
  function Body(q: string, t: string, c: string): string {
    Glue("q=" + q, Glue("t=" + t, "c=" + c))
  }

  function QueryBody(query: Query): string {
    Body(KeyText(query), Text(query.kind), Text(query.category))
  }

  lemma Regrouped(a: string, b: string, c: string, d: string, e: string, f: string)
    ensures Glue(a, Glue(b, Glue(c, Glue(d, Glue(e, f))))) == Glue(Glue(Glue(a, Glue(b, Glue(c, d))), e), f)
  {
    GlueAssociative(Glue(a, Glue(b, Glue(c, d))), e, f);
    GlueAssociative(a, Glue(b, Glue(c, d)), Glue(e, f));
    GlueAssociative(b, Glue(c, d), Glue(e, f));
    GlueAssociative(c, d, Glue(e, f));
  }

  lemma KeyShape(query: Query)
    ensures CacheKey(query) ==
            Glue(Glue(Glue(SEARCH_PREFIX, QueryBody(query)), "p=" + Decimal(Page(query))), "l=" + Decimal(Limit(query)))
  {
    var p := Parts(query);
    JoinSix(p[0], p[1], p[2], p[3], p[4], p[5]);
    assert p == [p[0], p[1], p[2], p[3], p[4], p[5]];
    Regrouped(p[0], p[1], p[2], p[3], p[4], p[5]);
  }

  lemma LastBarAt(x: string, y: string, k: nat)
    requires '|' !in y && k < |Glue(x, y)| && Glue(x, y)[k] == '|'
    ensures k <= |x|
  {
    assert forall i :: 0 <= i < |y| ==> Glue(x, y)[|x| + 1 + i] == y[i];
  }

  /** What follows the last bar can be read back. */
  lemma LastBar(x: string, y: string, z: string, w: string)
    requires Glue(x, y) == Glue(z, w) && '|' !in y && '|' !in w
    ensures x == z && y == w
  {
    var s := Glue(x, y);
    LastBarAt(x, y, |z|);
    LastBarAt(z, w, |x|);
    assert x == s[..|x|] && z == s[..|z|] && y == s[|x| + 1..] && w == s[|z| + 1..];
  }

  lemma CutPrefix(p: string, a: string, b: string)
    requires p + a == p + b
    ensures a == b
  {
    assert a == (p + a)[|p|..] && b == (p + b)[|p|..];
  }

  lemma {:induction false} CutDecimal(head: string, m: nat, n: nat)
    requires head + Decimal(m) == head + Decimal(n)
    ensures m == n
  {
    CutPrefix(head, Decimal(m), Decimal(n));
    DecimalInjective(m, n);
  }

  lemma {:induction false} NoBar(head: string, n: nat)
    requires '|' !in head
    ensures '|' !in head + Decimal(n)
  {
    assert AllDigits(Decimal(n));
  }

  /** Two queries have the same key exactly when they share the body, the page and the limit. */
  lemma SameKey(a: Query, b: Query)
    ensures CacheKey(a) == CacheKey(b) <==> QueryBody(a) == QueryBody(b) && Page(a) == Page(b) && Limit(a) == Limit(b)
  {
    KeyShape(a);
    KeyShape(b);
    if CacheKey(a) == CacheKey(b) {
      var pa, pb, la, lb := "p=" + Decimal(Page(a)), "p=" + Decimal(Page(b)), "l=" + Decimal(Limit(a)),
        "l=" + Decimal(Limit(b));
      var xa, xb := Glue(SEARCH_PREFIX, QueryBody(a)), Glue(SEARCH_PREFIX, QueryBody(b));
      NoBar("p=", Page(a));
      NoBar("p=", Page(b));
      NoBar("l=", Limit(a));
      NoBar("l=", Limit(b));
      LastBar(Glue(xa, pa), la, Glue(xb, pb), lb);
      LastBar(xa, pa, xb, pb);
      CutDecimal("p=", Page(a), Page(b));
      CutDecimal("l=", Limit(a), Limit(b));
      CutPrefix(SEARCH_PREFIX + ['|'], QueryBody(a), QueryBody(b));
    }
  }

  // ---------- reading the body back ----------

  /** The body can be read with the mark of the type at i and the mark of the category at j: the marks are there, and the
      search text this leaves is trimmed and in lower case, as every search text is. */
  predicate SplitAt(body: string, i: nat, j: nat) {
    && 2 <= i && i + 3 <= j && j + 3 <= |body|
    && body[..2] == "q=" && body[i..i + 3] == "|t=" && body[j..j + 3] == "|c="
    && Trimmed(body[2..i]) && IsLower(body[2..i])
  }

  /** Where the marks of the query itself are. */
  function TypeMark(query: Query): nat {
    2 + |KeyText(query)|
  }

  function CategoryMark(query: Query): nat {
    TypeMark(query) + 3 + |Text(query.kind)|
  }

  /** There is one way to read the body. */
  ghost predicate OneSplit(query: Query) {
    forall i, j :: SplitAt(QueryBody(query), i, j) ==> i == TypeMark(query) && j == CategoryMark(query)
  }

  lemma BodySlices(q: string, t: string, c: string)
    ensures var b, i := Body(q, t, c), 2 + |q|;
      var j := i + 3 + |t|;
      && |b| == j + 3 + |c| && b[..2] == "q=" && b[2..i] == q
      && b[i..i + 3] == "|t=" && b[i + 3..j] == t && b[j..j + 3] == "|c=" && b[j + 3..] == c
  {
    var b := Body(q, t, c);
    var rest := "|t=" + t + "|c=" + c;
    assert b == "q=" + q + rest;
    assert b[2 + |q|..] == rest;
    var tail := "|c=" + c;
    assert rest == "|t=" + t + tail;
    assert rest[3 + |t|..] == tail;
    assert b[2 + |q| + 3 + |t|..] == tail;
  }

  lemma OwnSplit(query: Query)
    ensures SplitAt(QueryBody(query), TypeMark(query), CategoryMark(query))
  {
    BodySlices(KeyText(query), Text(query.kind), Text(query.category));
    TrimIsTrimmed(Text(query.q));
    TrimmedLower(Trim(Text(query.q)));
    LowerIsLower(Trim(Text(query.q)));
  }

  lemma Reread(body: string, i: nat, j: nat)
    requires SplitAt(body, i, j)
    ensures Body(body[2..i], body[i + 3..j], body[j + 3..]) == body
  {
    assert body == body[..2] + body[2..i] + body[i..i + 3] + body[i + 3..j] + body[j..j + 3] + body[j + 3..];
    assert Body(body[2..i], body[i + 3..j], body[j + 3..]) ==
            "q=" + body[2..i] + "|t=" + body[i + 3..j] + "|c=" + body[j + 3..];
  }

  /** The query that another reading of the body stands for. */
  function Reading(query: Query, i: nat, j: nat): Query
    requires SplitAt(QueryBody(query), i, j)
  {
    var body := QueryBody(query);
    query.(q := Some(body[2..i]), kind := Some(body[i + 3..j]), category := Some(body[j + 3..]))
  }

  lemma ReadingSharesKey(query: Query, i: nat, j: nat)
    requires SplitAt(QueryBody(query), i, j)
    ensures var b := Reading(query, i, j);
      CacheKey(b) == CacheKey(query) && QueryBody(b) == QueryBody(query) && TypeMark(b) == i && CategoryMark(b) == j
  {
    var b := Reading(query, i, j);
    var q := QueryBody(query)[2..i];
    TrimIsTrimmed(q);
    LowerIsLower(q);
    assert KeyText(b) == q;
    Reread(QueryBody(query), i, j);
    SameKey(b, query);
  }

  /** Bodies with the marks at the same places are made of the same texts. */
  lemma SameMarksSameTexts(q: string, t: string, c: string, o: string, u: string, d: string)
    requires Body(q, t, c) == Body(o, u, d) && |q| == |o| && |t| == |u|
    ensures q == o && t == u && c == d
  {
    BodySlices(q, t, c);
    BodySlices(o, u, d);
  }

  /** With one way to read the body, a shared key means the same texts, up to case of the search text, and the same page. */
  lemma KeyDetermines(a: Query, b: Query)
    requires OneSplit(a) && CacheKey(a) == CacheKey(b)
    ensures KeyText(a) == KeyText(b) && Text(a.kind) == Text(b.kind) && Text(a.category) == Text(b.category)
    ensures Page(a) == Page(b) && Limit(a) == Limit(b)
  {
    assert QueryBody(a) == QueryBody(b) && Page(a) == Page(b) && Limit(a) == Limit(b) by { SameKey(a, b); }
    assert SplitAt(QueryBody(a), TypeMark(b), CategoryMark(b)) by { OwnSplit(b); }
    SameMarksSameTexts(KeyText(a), Text(a.kind), Text(a.category), KeyText(b), Text(b.kind), Text(b.category));
  }

  // ---------- the key determines the result ----------

  /** The search text names a wallet whose letters count as written, while the key folds their case. */
  predicate CaseMatters(query: Query) {
    var q := Trim(Text(query.q));
    ParseType(query.kind) == Some(CRYPTO_WALLET) && !IsEvm(q) && Lower(q) != Upper(q)
  }

  /** Queries that the key serves right. */
  ghost predicate Plain(query: Query) {
    OneSplit(query) && !CaseMatters(query)
  }

  /** The normalized search text depends on its lower case only, unless it is a wallet that is no EVM address. */
  lemma NormalizedByLower(kind: IndicatorType, s: string, t: string)
    requires Trimmed(s) && Trimmed(t) && Lower(s) == Lower(t)
    requires kind == CRYPTO_WALLET ==> IsEvm(s) || Lower(s) == Upper(s)
    ensures NormalizeIndicator(kind, s) == NormalizeIndicator(kind, t)
  {
    if kind == CRYPTO_WALLET {
      TrimIsTrimmed(s);
      TrimIsTrimmed(t);
      if IsEvm(s) { EvmByLower(s, t); } else { Caseless(s, t); }
    } else {
      NormalizeIgnoresCase(kind, s);
      NormalizeIgnoresCase(kind, t);
    }
  }

  lemma TextMatchesByLower(e: Entry, kind: Option<IndicatorType>, s: string, t: string)
    requires Trimmed(s) && Trimmed(t) && Lower(s) == Lower(t)
    requires kind == Some(CRYPTO_WALLET) ==> IsEvm(s) || Lower(s) == Upper(s)
    ensures TextMatches(e, kind, s) <==> TextMatches(e, kind, t)
  {
    assert |s| == |t|;
    if s != "" && kind.Some? { NormalizedByLower(kind.value, s, t); }
  }

  lemma {:induction false} SameSelection(entries: seq<Entry>, a: Query, b: Query)
    requires forall e :: Matching(e, a) <==> Matching(e, b)
    ensures Select(entries, a) == Select(entries, b)
  {
    if entries != [] { SameSelection(entries[1..], a, b); }
  }

  /** The key of a plain query determines its result, on every registry, whatever other query has the same key. */
  lemma {:induction false} KeyDeterminesResult(entries: seq<Entry>, a: Query, b: Query)
    requires Plain(a) && CacheKey(a) == CacheKey(b)
    ensures Uncached(entries, a) == Uncached(entries, b)
  {
    KeyDetermines(a, b);
    forall e
      ensures Matching(e, a) <==> Matching(e, b)
    {
      TrimIsTrimmed(Text(a.q));
      TrimIsTrimmed(Text(b.q));
      TextMatchesByLower(e, ParseType(a.kind), Trim(Text(a.q)), Trim(Text(b.q)));
    }
    SameSelection(entries, a, b);
  }

  /** Every search key starts with the prefix that invalidation sweeps. */
  lemma KeyHasPrefix(query: Query)
    ensures SEARCH_PREFIX <= CacheKey(query)
  {
  }

  // ---------- and only that of a plain query does ----------

  /** A published entry that the query asks for. */
  function Wanted(query: Query, kind: IndicatorType): Entry {
    var q := Trim(Text(query.q));
    var normalized := if ParseType(query.kind).Some? then NormalizeIndicator(kind, q) else Lower(q);
    Entry("e", kind, normalized, normalized, Upper(Text(query.category)), PUBLISHED, 50, "", 0, "s", Some(0), Some(0))
  }

  predicate KindFits(query: Query, kind: IndicatorType) {
    ParseType(query.kind).Some? ==> kind == ParseType(query.kind).value
  }

  lemma WantedMatches(query: Query, kind: IndicatorType)
    requires KindFits(query, kind)
    ensures Matching(Wanted(query, kind), query)
  {
    var q := Trim(Text(query.q));
    assert Contains(Lower(q), Lower(q));
  }

  lemma {:induction false} ShortContainsNot(s: string, t: string)
    requires |s| < |t|
    ensures !Contains(s, t)
  {
    if s != "" { ShortContainsNot(s[1..], t); }
  }

  lemma UpperLength(s: string)
    ensures |Upper(s)| == |s|
  {
  }

  /** Queries with categories of different length are told apart by some entry. */
  lemma CategoryTellsApart(a: Query, b: Query) returns (e: Entry)
    requires |Text(a.category)| < |Text(b.category)|
    ensures Matching(e, a) && !Matching(e, b)
  {
    var kind := if ParseType(a.kind).Some? then ParseType(a.kind).value else OTHER;
    WantedMatches(a, kind);
    UpperLength(Text(a.category));
    UpperLength(Text(b.category));
    e := Wanted(a, kind);
  }

  /** A text with a bar is no type. */
  lemma BarNoType(raw: Option<string>, k: nat)
    requires k < |Text(raw)| && Text(raw)[k] == '|'
    ensures ParseType(raw).None?
  {
    assert Upper(Text(raw))[k] == '|';
  }

  /** So are queries with the same category, one of which has the longer search text and the other no valid type. */
  lemma TextTellsApart(a: Query, b: Query) returns (e: Entry)
    requires ParseType(a.kind).None? && |KeyText(a)| < |KeyText(b)|
    ensures Matching(e, a) && !Matching(e, b)
  {
    var kind := if ParseType(b.kind) == Some(OTHER) then PHONE else OTHER;
    e := Wanted(a, kind);
    WantedMatches(a, kind);
    assert e.normalized == KeyText(a) && |Lower(e.value)| == |KeyText(a)|;
    ShortContainsNot(e.normalized, KeyText(b));
    ShortContainsNot(Lower(e.value), KeyText(b));
    assert !TextMatches(e, None, Trim(Text(b.q)));
  }

  /** The bytes of the type mark, and those behind it. */
  lemma MarkBytes(q: string, t: string, c: string)
    ensures var b, i := Body(q, t, c), 2 + |q|;
      |b| >= i + 3 && b[i] == '|' && b[i + 1] == 't' && b[i + 2] == '='
  {
    BodyAt(q, t, c, 2 + |q|);
    BodyAt(q, t, c, 3 + |q|);
    BodyAt(q, t, c, 4 + |q|);
  }

  /** Of two readings of one body with the same category, the one with the shorter search text has no valid type: the
      mark of the other lies inside its type. */
  lemma ShorterHasNoType(a: Query, b: Query)
    requires QueryBody(a) == QueryBody(b) && CategoryMark(a) == CategoryMark(b) && TypeMark(a) < TypeMark(b)
    ensures ParseType(a.kind).None?
  {
    var i, k := TypeMark(a), TypeMark(b);
    MarkBytes(KeyText(a), Text(a.kind), Text(a.category));
    MarkBytes(KeyText(b), Text(b.kind), Text(b.category));
    assert k >= i + 3;
    BodyAt(KeyText(a), Text(a.kind), Text(a.category), k);
    BarNoType(a.kind, k - i - 3);
  }

  /** Any two readings of one body are told apart by some entry. */
  lemma ReadingsDiffer(a: Query, b: Query) returns (e: Entry)
    requires QueryBody(a) == QueryBody(b)
    requires TypeMark(a) != TypeMark(b) || CategoryMark(a) != CategoryMark(b)
    ensures Matching(e, a) != Matching(e, b)
  {
    BodySlices(KeyText(a), Text(a.kind), Text(a.category));
    BodySlices(KeyText(b), Text(b.kind), Text(b.category));
    if CategoryMark(a) > CategoryMark(b) {
      e := CategoryTellsApart(a, b);
    } else if CategoryMark(a) < CategoryMark(b) {
      e := CategoryTellsApart(b, a);
    } else if TypeMark(a) < TypeMark(b) {
      ShorterHasNoType(a, b);
      e := TextTellsApart(a, b);
    } else {
      ShorterHasNoType(b, a);
      e := TextTellsApart(b, a);
    }
  }

  function CaseVariant(a: Query): Query {
    a.(q := Some(OtherCase(Trim(Text(a.q)))))
  }

  lemma VariantSharesKey(a: Query)
    ensures CacheKey(CaseVariant(a)) == CacheKey(a)
  {
    var q := Trim(Text(a.q));
    TrimIsTrimmed(Text(a.q));
    OtherCaseDiffers(q);
    TrimmedByLower(q, OtherCase(q));
    TrimIsTrimmed(OtherCase(q));
    SameKey(CaseVariant(a), a);
  }

  lemma VariantMisses(a: Query)
    requires CaseMatters(a)
    ensures Matching(Wanted(a, CRYPTO_WALLET), a) && !Matching(Wanted(a, CRYPTO_WALLET), CaseVariant(a))
  {
    var q := Trim(Text(a.q));
    WantedMatches(a, CRYPTO_WALLET);
    TrimIsTrimmed(Text(a.q));
    OtherCaseDiffers(q);
    TrimmedByLower(q, OtherCase(q));
    TrimIsTrimmed(OtherCase(q));
    WalletCaseExact(q);
    assert OtherCase(q) != "" by { assert |OtherCase(q)| == |q|; assert Lower("") == Upper(""); }
  }

  /** A query that is not plain shares its key with another query that some entry tells apart from it. */
  lemma Confused(a: Query) returns (b: Query, e: Entry)
    requires !Plain(a)
    ensures CacheKey(b) == CacheKey(a) && Page(b) == Page(a) && Limit(b) == Limit(a) && Matching(e, a) != Matching(e, b)
  {
    if OneSplit(a) {
      b, e := CaseVariant(a), Wanted(a, CRYPTO_WALLET);
      VariantSharesKey(a);
      VariantMisses(a);
    } else {
      var i, j :| SplitAt(QueryBody(a), i, j) && (i != TypeMark(a) || j != CategoryMark(a));
      ReadingSharesKey(a, i, j);
      b := Reading(a, i, j);
      e := ReadingsDiffer(a, b);
    }
  }

  /** A registry full of published entries that look like e tells apart the queries that e tells apart. */
  lemma LookalikesTellApart(entries: seq<Entry>, e: Entry, a: Query, b: Query)
    requires Matching(e, a) != Matching(e, b) && Page(b) == Page(a) && Limit(b) == Limit(a) && |entries| > Skip(a)
    requires forall i :: 0 <= i < |entries| ==> LooksLike(entries[i], e)
    ensures Uncached(entries, a) != Uncached(entries, b)
  {
    forall i | 0 <= i < |entries|
      ensures Matching(entries[i], a) == Matching(e, a) && Matching(entries[i], b) == Matching(e, b)
    {
      assert LooksLike(entries[i], e);
    }
    if Matching(e, a) { ToldApart(entries, a, b); } else { ToldApart(entries, b, a); }
  }

  /** The same in everything that a search looks at. */
  predicate LooksLike(e: Entry, f: Entry) {
    e.status == f.status && e.kind == f.kind && e.category == f.category && e.normalized == f.normalized
      && e.value == f.value
  }

  lemma KeyConfuses(a: Query) returns (b: Query, entries: seq<Entry>)
    requires !Plain(a)
    ensures CacheKey(b) == CacheKey(a) && Uncached(entries, b) != Uncached(entries, a)
  {
    var e;
    b, e := Confused(a);
    entries := seq(Skip(a) + 1, i => e);
    LookalikesTellApart(entries, e, a, b);
  }

  /** The key determines the result, on every registry and against every other query, exactly when its body can be read
      in one way and the query is no search for a wallet whose case matters. */
  lemma KeyExact(a: Query)
    ensures (forall b, entries :: CacheKey(b) == CacheKey(a) ==> Uncached(entries, b) == Uncached(entries, a)) <==> Plain(a)
  {
    if Plain(a) {
      forall b, entries | CacheKey(b) == CacheKey(a)
        ensures Uncached(entries, b) == Uncached(entries, a)
      {
        KeyDeterminesResult(entries, a, b);
      }
    } else {
      var b, entries := KeyConfuses(a);
    }
  }

  // ---------- which bodies can be read in one way ----------

  predicate BarFree(query: Query) {
    '|' !in KeyText(query) && '|' !in Text(query.kind) && '|' !in Text(query.category)
  }

  /** Texts without bars leave one way to read the body. */
  lemma BarFreeOneSplit(query: Query)
    requires BarFree(query)
    ensures OneSplit(query)
  {
    var body, m, n := QueryBody(query), TypeMark(query), CategoryMark(query);
    BodySlices(KeyText(query), Text(query.kind), Text(query.category));
    forall k | 0 <= k < |body| && body[k] == '|'
      ensures k == m || k == n
    {
      BarPlaces(query, k);
    }
    assert body[m + 1] == 't' by { assert body[m..m + 3][1] == 't'; }
    assert body[n + 1] == 'c' by { assert body[n..n + 3][1] == 'c'; }
    forall i: nat, j: nat | SplitAt(body, i, j)
      ensures i == m && j == n
    {
      assert body[i] == '|' && body[i + 1] == 't' by { assert body[i..i + 3][0] == '|' && body[i..i + 3][1] == 't'; }
      assert body[j] == '|' by { assert body[j..j + 3][0] == '|'; }
    }
  }

  lemma BarPlaces(query: Query, k: nat)
    requires BarFree(query) && k < |QueryBody(query)| && QueryBody(query)[k] == '|'
    ensures k == TypeMark(query) || k == CategoryMark(query)
  {
    BodyAt(KeyText(query), Text(query.kind), Text(query.category), k);
  }

  lemma BodyAt(q: string, t: string, c: string, k: nat)
    requires k < |Body(q, t, c)|
    ensures var m := 2 + |q|;
      var n := m + 3 + |t|;
      Body(q, t, c)[k] ==
      if k < 2 then "q="[k] else if k < m then q[k - 2] else if k < m + 3 then "|t="[k - m]
      else if k < n then t[k - m - 3] else if k < n + 3 then "|c="[k - n] else c[k - n - 3]
  {
  }

  /** A search text can imitate the other parts of a key. */
  lemma BarCollides()
    ensures !OneSplit(Query(Some("a|t=|c=x"), None, None, None, None))
  {
    var query := Query(Some("a|t=|c=x"), None, None, None, None);
    assert KeyText(query) == "a|t=|c=x" by { TrimIsTrimmed("a|t=|c=x"); }
    BarsMove();
    BodySlices("a", "", "x|t=|c=");
    assert SplitAt(QueryBody(query), 3, 6);
  }

  lemma BarsMove()
    ensures Body("a|t=|c=x", "", "") == Body("a", "", "x|t=|c=")
  {
  }
}
