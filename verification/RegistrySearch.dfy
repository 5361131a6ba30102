/** Public search over the registry: matching and paging. */
module RegistrySearch {
  import opened AsciiText
  import opened Normalization
  import opened RegistryLifecycle
  import opened Wrappers
  import Clustering

  /** A search request; absent fields are None. */
  datatype Query = Query(q: Option<string>, kind: Option<string>, category: Option<string>, page: Option<real>,
          limit: Option<real>)

  datatype PublicEntry = PublicEntry(
    id: string, kind: IndicatorType, indicator: string, category: string, summary: string,
    riskLevel: Clustering.RiskLevel, lastSeen: int, publishedAt: Option<int>)

  datatype SearchResult = SearchResult(items: seq<PublicEntry>, page: nat, limit: nat, hasMore: bool)

  const MAX_PAGE_SIZE: nat := 100
  const DEFAULT_PAGE_SIZE: real := 50.0

  // ---------- the request ----------

  function Text(o: Option<string>): string {
    if o.Some? then o.value else ""
  }

  function Page(query: Query): (p: nat)
    ensures p >= 1
  {
    Max(1, (if query.page.Some? then query.page.value else 1.0).Floor)
  }

  function Limit(query: Query): (l: nat)
    ensures 1 <= l <= MAX_PAGE_SIZE
  {
    Min(MAX_PAGE_SIZE, Max(1, (if query.limit.Some? then query.limit.value else DEFAULT_PAGE_SIZE).Floor))
  }

  /** The requested page rounded down, or 1 for none and for anything below. */
  lemma PageMeans(query: Query, k: nat)
    ensures query.page.None? ==> Page(query) == 1
    ensures query.page.Some? && k >= 2 ==> (Page(query) == k <==> k as real <= query.page.value < k as real + 1.0)
    ensures query.page.Some? ==> (Page(query) == 1 <==> query.page.value < 2.0)
  {
  }

  /** The requested page size rounded down, within its bounds. */
  lemma LimitMeans(query: Query, k: nat)
    ensures query.limit.None? ==> Limit(query) == 50
    ensures query.limit.Some? && 2 <= k <= 99 ==>
      (Limit(query) == k <==> k as real <= query.limit.value < k as real + 1.0)
    ensures query.limit.Some? ==> (Limit(query) == 1 <==> query.limit.value < 2.0)
    ensures query.limit.Some? ==> (Limit(query) == 100 <==> query.limit.value >= 100.0)
  {
  }

  function TypeName(kind: IndicatorType): string {
    match kind
    case PHONE => "PHONE"
    case EMAIL => "EMAIL"
    case DOMAIN => "DOMAIN"
    case URL => "URL"
    case CRYPTO_WALLET => "CRYPTO_WALLET"
    case SCAM_PHRASE => "SCAM_PHRASE"
    case FAKE_COMPANY => "FAKE_COMPANY"
    case SOCIAL_PROFILE => "SOCIAL_PROFILE"
    case OTHER => "OTHER"
  }

  /** A type is asked for by its name, in any case; any other text asks for none. */
  lemma ParseTypeMeans(raw: Option<string>, kind: IndicatorType)
    ensures ParseType(raw) == Some(kind) <==> raw.Some? && Upper(raw.value) == TypeName(kind)
  {
  }

  function ParseType(raw: Option<string>): Option<IndicatorType> {
    var upper := Upper(Text(raw));
    if upper == "PHONE" then Some(PHONE)
    else if upper == "EMAIL" then Some(EMAIL)
    else if upper == "DOMAIN" then Some(DOMAIN)
    else if upper == "URL" then Some(URL)
    else if upper == "CRYPTO_WALLET" then Some(CRYPTO_WALLET)
    else if upper == "SCAM_PHRASE" then Some(SCAM_PHRASE)
    else if upper == "FAKE_COMPANY" then Some(FAKE_COMPANY)
    else if upper == "SOCIAL_PROFILE" then Some(SOCIAL_PROFILE)
    else if upper == "OTHER" then Some(OTHER)
    else None
  }

  // ---------- matching ----------

  /** The text condition, for a trimmed search text. */
  predicate TextMatches(e: Entry, kind: Option<IndicatorType>, q: string) {
    if q == "" then true
    else if kind.Some? then e.normalized == NormalizeIndicator(kind.value, q)
    else Contains(e.normalized, Lower(q)) || Contains(Lower(e.value), Lower(q))
  }

  predicate Matching(e: Entry, query: Query) {
    && e.status == PUBLISHED
    && (ParseType(query.kind).Some? ==> e.kind == ParseType(query.kind).value)
    && (Text(query.category) != "" ==> e.category == Upper(Text(query.category)))
    && TextMatches(e, ParseType(query.kind), Trim(Text(query.q)))
  }

  /** The text occurs, up to the case of its letters. */
  predicate OccursAnyCase(s: string, t: string, k: nat) {
    k + |t| <= |s| && SameUpToCase(s[k..k + |t|], t)
  }

  lemma LowerContains(s: string, t: string)
    ensures Contains(Lower(s), Lower(t)) <==> exists k: nat :: OccursAnyCase(s, t, k)
  {
    ContainsMeans(Lower(s), Lower(t));
    forall k: nat
      ensures OccursAt(Lower(s), Lower(t), k) <==> OccursAnyCase(s, t, k)
    {
      if k + |t| <= |s| {
        assert Lower(s)[k..k + |t|] == Lower(s[k..k + |t|]);
        LowerSame(s[k..k + |t|], t);
      }
    }
  }

  /** What a search asks for: published entries, of the type it names if it names one, of the category it gives in any
      case, and with its text. The text of a typed search is the normalized indicator; that of any other occurs in the
      normalized indicator in lower case, or in the reported one in any case. */
  lemma MatchingMeans(e: Entry, query: Query)
    ensures var q := Trim(Text(query.q));
      Matching(e, query) <==>
      && e.status == PUBLISHED
      && (forall kind :: query.kind.Some? && Upper(query.kind.value) == TypeName(kind) ==>
            e.kind == kind && (q == "" || e.normalized == NormalizeIndicator(kind, q)))
      && (query.category.Some? && query.category.value != "" ==> e.category == Upper(query.category.value))
      && (q == "" || ParseType(query.kind).Some? || (exists k: nat :: OccursAt(e.normalized, Lower(q), k))
          || (exists k: nat :: OccursAnyCase(e.value, q, k)))
  {
    var q := Trim(Text(query.q));
    forall kind
      ensures ParseType(query.kind) == Some(kind) <==> query.kind.Some? && Upper(query.kind.value) == TypeName(kind)
    {
      ParseTypeMeans(query.kind, kind);
    }
    ContainsMeans(e.normalized, Lower(q));
    LowerContains(e.value, q);
  }

  function Select(entries: seq<Entry>, query: Query): (r: seq<Entry>)
    ensures forall e :: e in r <==> e in entries && Matching(e, query)
  {
    if entries == [] then []
    else (if Matching(entries[0], query) then [entries[0]] else []) + Select(entries[1..], query)
  }

  function InsertLatest(e: Entry, s: seq<Entry>): (r: seq<Entry>)
    ensures multiset(r) == multiset(s) + multiset{e}
  {
    if s == [] || s[0].lastSeen <= e.lastSeen then [e] + s
    else
      assert s == [s[0]] + s[1..];
      [s[0]] + InsertLatest(e, s[1..])
  }

  /** `orderBy: { lastSeen: 'desc' }`, rows of equal time in table order. */
  function SortLatest(s: seq<Entry>): (r: seq<Entry>)
    ensures multiset(r) == multiset(s)
  {
    if s == [] then []
    else
      assert s == [s[0]] + s[1..];
      InsertLatest(s[0], SortLatest(s[1..]))
  }

  ghost predicate Latest(s: seq<Entry>) {
    forall i, j :: 0 <= i < j < |s| ==> s[i].lastSeen >= s[j].lastSeen
  }

  lemma {:induction false} InsertMembers(e: Entry, s: seq<Entry>, j: nat)
    requires j < |InsertLatest(e, s)|
    ensures InsertLatest(e, s)[j] == e || InsertLatest(e, s)[j] in s
  {
    var r := InsertLatest(e, s);
    assert r[j] in multiset(r);
    assert r[j] in multiset(s) + multiset{e};
  }

  lemma ConsLatest(e: Entry, s: seq<Entry>)
    requires Latest(s) && forall j :: 0 <= j < |s| ==> e.lastSeen >= s[j].lastSeen
    ensures Latest([e] + s)
  {
  }

  lemma {:induction false} InsertKeepsLatest(e: Entry, s: seq<Entry>)
    requires Latest(s)
    ensures Latest(InsertLatest(e, s))
  {
    if s != [] && s[0].lastSeen > e.lastSeen {
      InsertKeepsLatest(e, s[1..]);
      var r := InsertLatest(e, s[1..]);
      forall j | 0 <= j < |r|
        ensures s[0].lastSeen >= r[j].lastSeen
      {
        InsertMembers(e, s[1..], j);
      }
      ConsLatest(s[0], r);
    } else {
      ConsLatest(e, s);
    }
  }

  lemma {:induction false} SortIsLatest(s: seq<Entry>)
    ensures Latest(SortLatest(s))
  {
    if s != [] {
      SortIsLatest(s[1..]);
      InsertKeepsLatest(s[0], SortLatest(s[1..]));
    }
  }

  /** All matches, latest first. */
  function Matches(entries: seq<Entry>, query: Query): seq<Entry> {
    SortLatest(Select(entries, query))
  }

  /** The list of all matches holds exactly the published entries that match, latest first. */
  lemma {:induction false} MatchesExactly(entries: seq<Entry>, query: Query)
    ensures Latest(Matches(entries, query))
    ensures multiset(Matches(entries, query)) == multiset(Select(entries, query))
    ensures forall e :: e in Matches(entries, query) <==> e in entries && Matching(e, query)
  {
    SortIsLatest(Select(entries, query));
    var m, s := Matches(entries, query), Select(entries, query);
    forall e
      ensures e in m <==> e in s
    {
      assert e in m <==> e in multiset(m);
      assert e in s <==> e in multiset(s);
    }
  }

  // ---------- paging ----------

  function ToPublic(e: Entry): PublicEntry {
    PublicEntry(e.id, e.kind, e.value, e.category, e.summary, Clustering.LevelForScore(e.confidence), e.lastSeen,
      e.publishedAt)
  }

  function Publics(s: seq<Entry>): (r: seq<PublicEntry>)
    ensures |r| == |s| && forall i :: 0 <= i < |s| ==> r[i] == ToPublic(s[i])
  {
    seq(|s|, i requires 0 <= i < |s| => ToPublic(s[i]))
  }

  /** `skip` and `take` of a query. */
  function Window<T>(s: seq<T>, skip: nat, take: nat): seq<T> {
    var rest := if skip <= |s| then s[skip..] else [];
    if take <= |rest| then rest[..take] else rest
  }

  function PageResult(matches: seq<Entry>, page: nat, limit: nat): SearchResult
    requires page >= 1 && limit >= 1
  {
    var rows := Window(matches, (page - 1) * limit, limit + 1);
    var hasMore := |rows| > limit;
    SearchResult(Publics(if hasMore then rows[..limit] else rows), page, limit, hasMore)
  }

  /** The search without the cache. */
  function Uncached(entries: seq<Entry>, query: Query): SearchResult {
    PageResult(Matches(entries, query), Page(query), Limit(query))
  }

  /** Page p holds the matches number (p-1)*limit up to p*limit, and there are more exactly when p*limit is short of all. */
  lemma PageHolds(matches: seq<Entry>, page: nat, limit: nat)
    requires page >= 1 && limit >= 1
    ensures var lo, hi := (page - 1) * limit, page * limit;
      var r := PageResult(matches, page, limit);
      && r.items == Publics(matches[Min(lo, |matches|)..Min(hi, |matches|)])
      && (r.hasMore <==> hi < |matches|)
  {
    assert page * limit == (page - 1) * limit + limit;
    WindowIs(matches, (page - 1) * limit, limit);
  }

  lemma WindowIs(s: seq<Entry>, lo: nat, limit: nat)
    requires limit >= 1
    ensures var rows := Window(s, lo, limit + 1);
      && (|rows| > limit <==> lo + limit < |s|)
      && (if |rows| > limit then rows[..limit] else rows) == s[Min(lo, |s|)..Min(lo + limit, |s|)]
  {
  }

  /** The request for another page of the same search. */
  function AtPage(query: Query, page: nat): Query {
    query.(page := Some(page as real))
  }

  lemma SamePages(entries: seq<Entry>, query: Query, page: nat)
    requires page >= 1
    ensures Uncached(entries, AtPage(query, page)) == PageResult(Matches(entries, query), page, Limit(query))
  {
    var other := AtPage(query, page);
    SelectAlike(entries, query, other);
    PageMeans(other, page);
  }

  lemma {:induction false} SelectAlike(entries: seq<Entry>, a: Query, b: Query)
    requires b == a.(page := b.page)
    ensures Select(entries, a) == Select(entries, b)
  {
    if entries != [] { SelectAlike(entries[1..], a, b); }
  }

  function Skipped(page: nat, limit: nat): nat
    requires page >= 1
  {
    (page - 1) * limit
  }

  lemma NextPage(page: nat, limit: nat)
    requires page >= 1
    ensures Skipped(page + 1, limit) == Skipped(page, limit) + limit == page * limit
  {
  }

  /** What a client collects that asks for page after page, from `page` on, while there are more. */
  function Walk(entries: seq<Entry>, query: Query, page: nat): seq<PublicEntry>
    requires page >= 1
    decreases |Matches(entries, query)| - Skipped(page, Limit(query))
  {
    var r := Uncached(entries, AtPage(query, page));
    SamePages(entries, query, page);
    PageHolds(Matches(entries, query), page, Limit(query));
    NextPage(page, Limit(query));
    r.items + (if r.hasMore then Walk(entries, query, page + 1) else [])
  }

  /** The matches from the page on, whatever the page size. */
  function From(matches: seq<Entry>, page: nat, limit: nat): seq<Entry>
    requires page >= 1
  {
    matches[Min(Skipped(page, limit), |matches|)..]
  }

  lemma PageThenRest(matches: seq<Entry>, page: nat, limit: nat)
    requires page >= 1 && limit >= 1
    ensures var r := PageResult(matches, page, limit);
      && (r.hasMore ==> r.items + Publics(From(matches, page + 1, limit)) == Publics(From(matches, page, limit)))
      && (!r.hasMore ==> r.items == Publics(From(matches, page, limit)))
      && (r.hasMore ==> Skipped(page, limit) < Skipped(page + 1, limit) < |matches|)
  {
    var lo, hi := Skipped(page, limit), Skipped(page + 1, limit);
    PageHolds(matches, page, limit);
    NextPage(page, limit);
    if hi < |matches| {
      PublicsAppend(matches, lo, hi);
    } else {
      assert matches[Min(lo, |matches|)..|matches|] == matches[Min(lo, |matches|)..];
    }
  }

  lemma {:induction false} WalkFrom(entries: seq<Entry>, query: Query, page: nat)
    requires page >= 1
    ensures Walk(entries, query, page) == Publics(From(Matches(entries, query), page, Limit(query)))
    decreases |Matches(entries, query)| - Skipped(page, Limit(query))
  {
    SamePages(entries, query, page);
    PageThenRest(Matches(entries, query), page, Limit(query));
    if Uncached(entries, AtPage(query, page)).hasMore { WalkFrom(entries, query, page + 1); }
  }

  lemma PublicsAppend(s: seq<Entry>, lo: nat, hi: nat)
    requires lo <= hi <= |s|
    ensures Publics(s[lo..hi]) + Publics(s[hi..]) == Publics(s[lo..])
  {
    assert s[lo..hi] + s[hi..] == s[lo..];
  }

  /** The public columns of an entry, its confidence as a level only. */
  predicate Shows(p: PublicEntry, e: Entry) {
    && p.id == e.id && p.kind == e.kind && p.indicator == e.value && p.category == e.category && p.summary == e.summary
    && p.lastSeen == e.lastSeen && p.publishedAt == e.publishedAt
    && (p.riskLevel == Clustering.CRITICAL <==> 86 <= e.confidence)
    && (p.riskLevel == Clustering.HIGH <==> 61 <= e.confidence < 86)
    && (p.riskLevel == Clustering.MEDIUM <==> 31 <= e.confidence < 61)
    && (p.riskLevel == Clustering.LOW <==> e.confidence < 31)
  }

  /** The pages 1, 2, 3 and so on, as long as there are more, show every match exactly once, latest first, for every
      requested page size. */
  lemma {:induction false} WalkCoversAll(entries: seq<Entry>, query: Query)
    ensures var pages, matches := Walk(entries, query, 1), Matches(entries, query);
      |pages| == |matches| && forall i :: 0 <= i < |matches| ==> Shows(pages[i], matches[i])
  {
    WalkFrom(entries, query, 1);
    FromFirst(Matches(entries, query), Limit(query));
    AllShown(Matches(entries, query));
  }

  lemma FromFirst(matches: seq<Entry>, limit: nat)
    ensures From(matches, 1, limit) == matches
  {
    assert Skipped(1, limit) == 0;
  }

  lemma AllShown(s: seq<Entry>)
    ensures |Publics(s)| == |s| && forall i :: 0 <= i < |s| ==> Shows(Publics(s)[i], s[i])
  {
  }

  // ---------- telling queries apart ----------

  lemma {:induction false} SelectsAll(entries: seq<Entry>, query: Query)
    requires forall i :: 0 <= i < |entries| ==> Matching(entries[i], query)
    ensures Select(entries, query) == entries
  {
    if entries != [] {
      assert Select(entries, query) == [entries[0]] + Select(entries[1..], query);
      SelectsAll(entries[1..], query);
    }
  }

  lemma {:induction false} SelectsNone(entries: seq<Entry>, query: Query)
    requires forall i :: 0 <= i < |entries| ==> !Matching(entries[i], query)
    ensures Select(entries, query) == []
  {
    if entries != [] {
      assert Select(entries, query) == [] + Select(entries[1..], query);
      SelectsNone(entries[1..], query);
    }
  }

  lemma {:induction false} MatchCount(entries: seq<Entry>, query: Query)
    ensures |Matches(entries, query)| == |Select(entries, query)|
  {
    assert |multiset(Matches(entries, query))| == |multiset(Select(entries, query))|;
  }

  function Skip(query: Query): nat {
    (Page(query) - 1) * Limit(query)
  }

  /** A page is empty exactly when the matches end before it. */
  lemma {:induction false} PageIsEmpty(entries: seq<Entry>, query: Query)
    ensures Uncached(entries, query).items == [] <==> |Select(entries, query)| <= Skip(query)
  {
    MatchCount(entries, query);
    ItemsFrom(Matches(entries, query), Page(query), Limit(query));
  }

  /** Enough entries that only one of two queries matches tell them apart. */
  lemma ToldApart(entries: seq<Entry>, a: Query, b: Query)
    requires |entries| > Skip(a)
    requires forall i :: 0 <= i < |entries| ==> Matching(entries[i], a) && !Matching(entries[i], b)
    ensures Uncached(entries, a) != Uncached(entries, b)
  {
    assert |Select(entries, a)| == |entries| && |Select(entries, b)| == 0 by {
      SelectsAll(entries, a);
      SelectsNone(entries, b);
    }
    assert Uncached(entries, a).items != [] by { PageIsEmpty(entries, a); }
    assert Uncached(entries, b).items == [] by { PageIsEmpty(entries, b); }
  }

  lemma ItemsFrom(matches: seq<Entry>, page: nat, limit: nat)
    requires page >= 1 && limit >= 1
    ensures |PageResult(matches, page, limit).items| > 0 <==> (page - 1) * limit < |matches|
  {
    PageHolds(matches, page, limit);
    assert page * limit == (page - 1) * limit + limit;
  }
}
