/** The registry service over its cache: every action, and why a cached search is as good as a fresh one. */
module RegistryService {
  import opened AsciiText
  import opened RegistryLifecycle
  import opened RegistrySearch
  import opened SearchKey
  import opened Wrappers
  import Cache

  const SEARCH_CACHE_TTL_MS := 60000

  type CacheEntry = Cache.Entry<SearchResult>

  /** The registry and the cache of one node. */
  datatype World = World(reg: State, cache: seq<CacheEntry>)

  datatype Op = Search(query: Query, now: int) | Govern(action: Action)

  /** Whether the action changes what the public can see, and so sweeps the cached searches. */
  predicate Sweeps(s: State, a: Action) {
    ErrorOf(s, a).None? && (a.Publish? || a.Unpublish? || (a.Decide? && TakesDown(s, a)))
  }

  const SWEEP := Cache.DeletePrefix(SEARCH_PREFIX)

  /** The answer to a search: the cached result if there is one, else the result computed now. */
  function Answer(w: World, query: Query, now: int): SearchResult {
    var hit := Cache.Hit(w.cache, CacheKey(query), now);
    if hit.Some? then hit.value else Uncached(w.reg.entries, query)
  }

  function CacheAfterSearch(w: World, max: nat, query: Query, now: int): seq<CacheEntry> {
    var key := CacheKey(query);
    var looked := Cache.AfterGet(w.cache, key, now);
    if Cache.Hit(w.cache, key, now).Some? then looked
    else Cache.Store(looked, max, Cache.Entry(key, Uncached(w.reg.entries, query), now + SEARCH_CACHE_TTL_MS))
  }

  function Step(w: World, max: nat, op: Op): World {
    match op
    case Search(query, now) => w.(cache := CacheAfterSearch(w, max, query, now))
    case Govern(a) => World(Do(w.reg, a), if Sweeps(w.reg, a) then Cache.Drop(w.cache, SWEEP) else w.cache)
  }

  class Service {
    const cache: Cache.CacheService<SearchResult>
    var entries: seq<Entry>
    var appeals: seq<Appeal>
    var log: seq<Evidence>

    ghost function Registry(): State
      reads this
    {
      State(entries, appeals, log)
    }

    constructor (cache: Cache.CacheService<SearchResult>)
      ensures this.cache == cache && Registry() == EMPTY
    {
      this.cache := cache;
      entries, appeals, log := [], [], [];
    }

    /** One row more than the page holds is read, to learn whether there is a next page. */
    static method FetchPage(matches: seq<Entry>, page: nat, limit: nat) returns (r: SearchResult)
      requires page >= 1 && limit >= 1
      ensures r.page == page && r.limit == limit
      ensures r.items == Publics(matches[Min((page - 1) * limit, |matches|)..Min(page * limit, |matches|)])
      ensures r.hasMore <==> page * limit < |matches|
    {
      PageHolds(matches, page, limit);
      var rows := Window(matches, (page - 1) * limit, limit + 1);
      var hasMore := |rows| > limit;
      var items := Publics(if hasMore then rows[..limit] else rows);
      r := SearchResult(items, page, limit, hasMore);
    }

    method Search(query: Query, now: int) returns (r: SearchResult)
      requires cache.Valid()
      modifies cache`store
      ensures cache.Valid()
      ensures r == Answer(World(Registry(), old(cache.store)), query, now)
      ensures cache.store == CacheAfterSearch(World(Registry(), old(cache.store)), cache.maxEntries, query, now)
    {
      var page := Page(query);
      var limit := Limit(query);
      var key := CacheKey(query);
      var cached := cache.Get(key, now);
      if cached.Some? { return cached.value; }
      r := FetchPage(Matches(entries, query), page, limit);
      PageHolds(Matches(entries, query), page, limit);
      cache.Set(key, r, now, SEARCH_CACHE_TTL_MS);
    }

    method InvalidateSearchCache() returns (removed: nat)
      requires cache.Valid()
      modifies cache`store, cache.bus`sent
      ensures cache.Valid()
      ensures cache.store == Cache.Drop(old(cache.store), SWEEP)
      ensures removed == |old(cache.store)| - |cache.store|
    {
      removed := cache.DeletePrefix(SEARCH_PREFIX);
    }

    method CreateCandidate(signal: Option<SourceSignal>, newId: string, category: Option<string>, summary: string,
            safe: bool)
      returns (error: Option<Error>)
      modifies this
      ensures var a := Create(signal, newId, category, summary, safe);
        error == ErrorOf(old(Registry()), a) && Registry() == Do(old(Registry()), a)
    {
      if signal.None? { return Some(NotFound); }
      var s := signal.value;
      if !s.verified { return Some(BadRequest); }
      if !safe { return Some(BadRequest); }
      if HasSource(entries, s.id) { return Some(Conflict); }
      entries := entries + [Candidate(Create(signal, newId, category, summary, safe), s)];
      log := log + [OfEntry(newId, CANDIDATE_CREATED)];
      return None;
    }

    method RequireStatus(id: string, allowed: set<Status>) returns (error: Option<Error>)
      ensures error == StatusError(Registry(), id, allowed)
    {
      var i := Find(entries, id);
      if i.None? { return Some(NotFound); }
      if entries[i.value].status !in allowed { return Some(BadRequest); }
      return None;
    }

    /** Rewrites one entry and logs the event. */
    method Move(id: string, status: Status, publishedAt: Option<int>, approvedAt: Option<int>, event: EntryEvent)
      requires Find(entries, id).Some?
      modifies this`entries, this`log
      ensures Registry() == Moved(old(Registry()), id, status, publishedAt, approvedAt, event)
    {
      var i := Find(entries, id).value;
      entries := entries[i := entries[i].(status := status, publishedAt := publishedAt, approvedAt := approvedAt)];
      log := log + [OfEntry(id, event)];
    }

    method Current(id: string) returns (e: Entry)
      requires Find(entries, id).Some?
      ensures e == Row(Registry(), id)
    {
      e := entries[Find(entries, id).value];
    }

    method Approve(id: string, now: int) returns (error: Option<Error>)
      modifies this
      ensures error == ErrorOf(old(Registry()), Action.Approve(id, now))
      ensures Registry() == Do(old(Registry()), Action.Approve(id, now))
    {
      error := RequireStatus(id, {CANDIDATE, UNDER_REVIEW});
      if error.Some? { return; }
      var e := Current(id);
      Move(id, APPROVED_PUBLIC_SAFE, e.publishedAt, Some(now), REGISTRY_APPROVED);
    }

    method Publish(id: string, now: int) returns (error: Option<Error>)
      requires cache.Valid()
      modifies this, cache`store, cache.bus`sent
      ensures cache.Valid()
      ensures error == ErrorOf(old(Registry()), Action.Publish(id, now))
      ensures World(Registry(), cache.store) ==
              Step(World(old(Registry()), old(cache.store)), cache.maxEntries, Govern(Action.Publish(id, now)))
    {
      error := RequireStatus(id, {APPROVED_PUBLIC_SAFE});
      if error.Some? { return; }
      var e := Current(id);
      Move(id, PUBLISHED, Some(now), e.approvedAt, REGISTRY_PUBLISHED);
      var _ := InvalidateSearchCache();
    }

    method Unpublish(id: string) returns (error: Option<Error>)
      requires cache.Valid()
      modifies this, cache`store, cache.bus`sent
      ensures cache.Valid()
      ensures error == ErrorOf(old(Registry()), Action.Unpublish(id))
      ensures World(Registry(), cache.store) ==
              Step(World(old(Registry()), old(cache.store)), cache.maxEntries, Govern(Action.Unpublish(id)))
    {
      error := RequireStatus(id, {PUBLISHED});
      if error.Some? { return; }
      var e := Current(id);
      Move(id, APPROVED_PUBLIC_SAFE, None, e.approvedAt, REGISTRY_UNPUBLISHED);
      var _ := InvalidateSearchCache();
    }

    method Reject(id: string) returns (error: Option<Error>)
      modifies this
      ensures error == ErrorOf(old(Registry()), Action.Reject(id))
      ensures Registry() == Do(old(Registry()), Action.Reject(id))
    {
      error := RequireStatus(id, {CANDIDATE, UNDER_REVIEW, APPROVED_PUBLIC_SAFE});
      if error.Some? { return; }
      var e := Current(id);
      Move(id, REJECTED, e.publishedAt, e.approvedAt, REGISTRY_REJECTED);
    }

    method FileAppeal(entryId: string, newId: string) returns (error: Option<Error>)
      modifies this
      ensures error == ErrorOf(old(Registry()), Action.FileAppeal(entryId, newId))
      ensures Registry() == Do(old(Registry()), Action.FileAppeal(entryId, newId))
    {
      var i := Find(entries, entryId);
      if i.None? || entries[i.value].status != PUBLISHED { return Some(NotFound); }
      appeals := appeals + [Appeal(newId, entryId, SUBMITTED)];
      log := log + [OfAppeal(newId, APPEAL_FILED)];
      return None;
    }

    method MoveAppeal(id: string, status: AppealStatus, event: AppealEvent)
      requires FindAppeal(appeals, id).Some?
      modifies this`appeals, this`log
      ensures Registry() == AppealMoved(old(Registry()), id, status, event)
    {
      var i := FindAppeal(appeals, id).value;
      appeals := appeals[i := appeals[i].(status := status)];
      log := log + [OfAppeal(id, event)];
    }

    method StartReview(id: string) returns (error: Option<Error>)
      modifies this
      ensures error == ErrorOf(old(Registry()), Action.StartReview(id))
      ensures Registry() == Do(old(Registry()), Action.StartReview(id))
    {
      var i := FindAppeal(appeals, id);
      if i.None? { return Some(NotFound); }
      if appeals[i.value].status != SUBMITTED { return Some(BadRequest); }
      MoveAppeal(id, APPEAL_UNDER_REVIEW, APPEAL_REVIEW_STARTED);
      return None;
    }

    method DecideAppeal(id: string, accepted: bool, unpublishEntry: bool) returns (error: Option<Error>)
      requires cache.Valid()
      modifies this, cache`store, cache.bus`sent
      ensures cache.Valid()
      ensures error == ErrorOf(old(Registry()), Decide(id, accepted, unpublishEntry))
      ensures World(Registry(), cache.store) ==
              Step(World(old(Registry()), old(cache.store)), cache.maxEntries, Govern(Decide(id, accepted, unpublishEntry)))
    {
      var i := FindAppeal(appeals, id);
      if i.None? { return Some(NotFound); }
      var appeal := appeals[i.value];
      if appeal.status != SUBMITTED && appeal.status != APPEAL_UNDER_REVIEW { return Some(BadRequest); }
      if accepted && unpublishEntry {
        var e := Find(entries, appeal.entryId);
        if e.Some? && entries[e.value].status == PUBLISHED {
          var _ := Unpublish(appeal.entryId);
        }
      }
      MoveAppeal(id, if accepted then ACCEPTED else APPEAL_REJECTED, if accepted then APPEAL_ACCEPTED else APPEAL_DECLINED);
      return None;
    }
  }

  // ---------- the cache is right ----------

  function Run(max: nat, ops: seq<Op>): World {
    if ops == [] then World(EMPTY, []) else Step(Run(max, ops[..|ops| - 1]), max, ops[|ops| - 1])
  }

  /** Every cached result that a plain query can hit is what the search would compute now. */
  ghost predicate Right(e: CacheEntry, entries: seq<Entry>) {
    forall query :: Plain(query) && CacheKey(query) == e.key ==> e.value == Uncached(entries, query)
  }

  ghost predicate CacheRight(w: World, max: nat) {
    && Cache.DistinctKeys(w.cache) && |w.cache| <= max
    && forall e :: e in w.cache ==> Right(e, w.reg.entries)
  }

  lemma StoredRight(entries: seq<Entry>, query: Query, expiresAt: int)
    ensures Right(Cache.Entry(CacheKey(query), Uncached(entries, query), expiresAt), entries)
  {
    forall other | Plain(other) && CacheKey(other) == CacheKey(query)
      ensures Uncached(entries, query) == Uncached(entries, other)
    {
      KeyDeterminesResult(entries, other, query);
    }
  }

  lemma SearchKeepsRight(w: World, max: nat, query: Query, now: int)
    requires CacheRight(w, max) && 0 < max
    ensures CacheRight(Step(w, max, Search(query, now)), max)
  {
    var key := CacheKey(query);
    Cache.DropContents(w.cache, Cache.DeleteKey(key));
    var looked := Cache.AfterGet(w.cache, key, now);
    var x := Cache.Entry(key, Uncached(w.reg.entries, query), now + SEARCH_CACHE_TTL_MS);
    Cache.StoreContents(looked, max, x);
    StoredRight(w.reg.entries, query, now + SEARCH_CACHE_TTL_MS);
  }

  /** Only rows that are or become public count in a search. */
  lemma {:induction false} HiddenRowUpdate(entries: seq<Entry>, i: nat, e: Entry, query: Query)
    requires i < |entries| && entries[i].status != PUBLISHED && e.status != PUBLISHED
    ensures Select(entries[i := e], query) == Select(entries, query)
  {
    if i == 0 {
      assert entries[i := e][1..] == entries[1..];
    } else {
      assert entries[i := e][1..] == entries[1..][i - 1 := e];
      HiddenRowUpdate(entries[1..], i - 1, e, query);
    }
  }

  lemma {:induction false} HiddenRowAppend(entries: seq<Entry>, e: Entry, query: Query)
    requires e.status != PUBLISHED
    ensures Select(entries + [e], query) == Select(entries, query)
  {
    if entries != [] {
      assert (entries + [e])[1..] == entries[1..] + [e];
      HiddenRowAppend(entries[1..], e, query);
    } else {
      assert entries + [e] == [e];
    }
  }

  /** An action that sweeps nothing changes no search result. */
  lemma UnsweptSame(s: State, a: Action, query: Query)
    requires !Sweeps(s, a)
    ensures Uncached(Do(s, a).entries, query) == Uncached(s.entries, query)
  {
    if ErrorOf(s, a).None? {
      match a
      case Create(signal, _, _, _, _) => HiddenRowAppend(s.entries, Candidate(a, signal.value), query);
      case Approve(id, _) => HiddenMove(s, a, id, query);
      case Reject(id) => HiddenMove(s, a, id, query);
      case _ =>
    }
  }

  lemma {:induction false} HiddenMove(s: State, a: Action, id: string, query: Query)
    requires ErrorOf(s, a).None? && (a.Approve? || a.Reject?) && a.id == id
    ensures Select(Do(s, a).entries, query) == Select(s.entries, query)
  {
    var i := Find(s.entries, id).value;
    HiddenRowUpdate(s.entries, i, Do(s, a).entries[i], query);
  }

  lemma PrefixIsPrefix(query: Query)
    ensures Cache.Matches(SWEEP, CacheKey(query))
  {
    KeyHasPrefix(query);
  }

  lemma GovernKeepsRight(w: World, max: nat, a: Action)
    requires CacheRight(w, max)
    ensures CacheRight(Step(w, max, Govern(a)), max)
  {
    var t := Step(w, max, Govern(a));
    Cache.DropContents(w.cache, SWEEP);
    forall e | e in t.cache
      ensures Right(e, t.reg.entries)
    {
      forall query | Plain(query) && CacheKey(query) == e.key
        ensures e.value == Uncached(t.reg.entries, query)
      {
        assert Right(e, w.reg.entries);
        PrefixIsPrefix(query);
        assert !Sweeps(w.reg, a);
        UnsweptSame(w.reg, a, query);
      }
    }
  }

  lemma {:induction false} EveryRun(max: nat, ops: seq<Op>)
    requires 0 < max
    ensures CacheRight(Run(max, ops), max)
  {
    if ops != [] {
      var n := |ops| - 1;
      EveryRun(max, ops[..n]);
      match ops[n]
      case Search(query, now) => SearchKeepsRight(Run(max, ops[..n]), max, query, now);
      case Govern(a) => GovernKeepsRight(Run(max, ops[..n]), max, a);
    }
  }

  /** After any run of searches and governance, through eviction and expiry, a plain query gets exactly the result
      recomputed from the current registry. */
  lemma {:induction false} CachedSearchRefinesUncached(max: nat, ops: seq<Op>, query: Query, now: int)
    requires 0 < max && Plain(query)
    ensures Answer(Run(max, ops), query, now) == Uncached(Run(max, ops).reg.entries, query)
  {
    EveryRun(max, ops);
    var w := Run(max, ops);
    var hit := Cache.Lookup(w.cache, CacheKey(query));
    if hit.Some? { assert Right(hit.value, w.reg.entries); }
  }

  // ---------- and any other query can be answered wrong ----------

  /** n published entries that look like e, made from n signals. */
  ghost predicate Grown(entries: seq<Entry>, e: Entry, n: nat) {
    && |entries| == n
    && forall i: nat :: i < n ==>
      entries[i].id == Decimal(i) && entries[i].sourceSignalId == Decimal(i) && LooksLike(entries[i], e)
  }

  function Birth(e: Entry, id: string): Action {
    Create(Some(SourceSignal(id, true, e.kind, e.value, e.normalized, Some(e.category), e.confidence, e.lastSeen)),
      id, None, e.summary, true)
  }

  lemma {:induction false} NewId(entries: seq<Entry>, e: Entry, n: nat)
    requires Grown(entries, e, n)
    ensures !HasSource(entries, Decimal(n)) && forall i: nat :: i < n ==> entries[i].id != Decimal(n)
  {
    forall i: nat | i < n
      ensures Decimal(i) != Decimal(n)
    {
      if Decimal(i) == Decimal(n) { DecimalInjective(i, n); }
    }
  }

  /** The entry that is being moved through its lifecycle is the last one. */
  ghost predicate Growing(entries: seq<Entry>, e: Entry, n: nat, status: Status) {
    && |entries| == n + 1 && Grown(entries[..n], e, n)
    && entries[n].id == Decimal(n) && entries[n].sourceSignalId == Decimal(n)
    && entries[n].status == status && LooksLike(entries[n].(status := e.status), e)
  }

  lemma {:induction false} Born(s: State, e: Entry, n: nat)
    requires Grown(s.entries, e, n)
    ensures Growing(Do(s, Birth(e, Decimal(n))).entries, e, n, CANDIDATE)
  {
    NewId(s.entries, e, n);
    assert Do(s, Birth(e, Decimal(n))).entries[..n] == s.entries;
  }

  lemma {:induction false} FoundLast(entries: seq<Entry>, e: Entry, n: nat, status: Status)
    requires Growing(entries, e, n, status)
    ensures Find(entries, Decimal(n)) == Some(n)
  {
    NewId(entries[..n], e, n);
    assert forall i: nat :: i < n ==> entries[i] == entries[..n][i];
    assert entries[n].id == Decimal(n);
  }

  lemma {:induction false} Approved(s: State, e: Entry, n: nat)
    requires Growing(s.entries, e, n, CANDIDATE)
    ensures Growing(Do(s, Action.Approve(Decimal(n), 0)).entries, e, n, APPROVED_PUBLIC_SAFE)
  {
    FoundLast(s.entries, e, n, CANDIDATE);
    assert Do(s, Action.Approve(Decimal(n), 0)).entries[..n] == s.entries[..n];
  }

  lemma {:induction false} PublishedLast(s: State, e: Entry, n: nat)
    requires Growing(s.entries, e, n, APPROVED_PUBLIC_SAFE) && e.status == PUBLISHED
    ensures Grown(Do(s, Action.Publish(Decimal(n), 0)).entries, e, n + 1)
  {
    FoundLast(s.entries, e, n, APPROVED_PUBLIC_SAFE);
    var t := Do(s, Action.Publish(Decimal(n), 0)).entries;
    assert t[..n] == s.entries[..n];
    forall i: nat | i < n + 1
      ensures t[i].id == Decimal(i) && t[i].sourceSignalId == Decimal(i) && LooksLike(t[i], e)
    {
      if i < n { assert t[i] == s.entries[..n][i]; }
    }
  }

  lemma GovernNext(max: nat, ops: seq<Op>, a: Action) returns (r: seq<Op>)
    requires Run(max, ops).cache == []
    ensures Run(max, r) == World(Do(Run(max, ops).reg, a), [])
  {
    r := ops + [Govern(a)];
    assert r[..|ops|] == ops;
  }

  lemma {:induction false} GrowRun(max: nat, e: Entry, n: nat) returns (ops: seq<Op>)
    requires e.status == PUBLISHED
    ensures Grown(Run(max, ops).reg.entries, e, n) && Run(max, ops).cache == []
  {
    if n == 0 {
      ops := [];
    } else {
      var before := GrowRun(max, e, n - 1);
      var id := Decimal(n - 1);
      Born(Run(max, before).reg, e, n - 1);
      var born := GovernNext(max, before, Birth(e, id));
      Approved(Run(max, born).reg, e, n - 1);
      var approved := GovernNext(max, born, Action.Approve(id, 0));
      PublishedLast(Run(max, approved).reg, e, n - 1);
      ops := GovernNext(max, approved, Action.Publish(id, 0));
    }
  }

  /** The first search on an empty cache stores its result. */
  lemma FirstSearch(w: World, max: nat, b: Query)
    requires w.cache == [] && 0 < max
    ensures Step(w, max, Search(b, 0)) ==
            World(w.reg, [Cache.Entry(CacheKey(b), Uncached(w.reg.entries, b), SEARCH_CACHE_TTL_MS)])
  {
    assert Cache.Lookup<SearchResult>([], CacheKey(b)).None?;
  }

  /** A cache with one fresh entry answers every query that has its key. */
  lemma HitOfOne(reg: State, r: SearchResult, key: string, a: Query)
    requires CacheKey(a) == key
    ensures Answer(World(reg, [Cache.Entry(key, r, SEARCH_CACHE_TTL_MS)]), a, 0) == r
  {
  }

  /** One search on an empty cache leaves its result for every query with the same key. */
  lemma SearchNext(max: nat, ops: seq<Op>, a: Query, b: Query) returns (r: seq<Op>)
    requires 0 < max && Run(max, ops).cache == [] && CacheKey(a) == CacheKey(b)
    ensures Run(max, r).reg == Run(max, ops).reg
    ensures Answer(Run(max, r), a, 0) == Uncached(Run(max, ops).reg.entries, b)
  {
    r := ops + [Search(b, 0)];
    var w := Run(max, ops);
    assert Run(max, r) == Step(w, max, Search(b, 0)) by { assert r[..|ops|] == ops; }
    FirstSearch(w, max, b);
    HitOfOne(w.reg, Uncached(w.reg.entries, b), CacheKey(b), a);
  }

  /** Every query that is not plain is, after some run of legal actions and a single search, answered with another result
      than the registry holds for it. */
  lemma WrongAnswer(max: nat, query: Query)
    requires 0 < max && !Plain(query)
    ensures exists ops :: Answer(Run(max, ops), query, 0) != Uncached(Run(max, ops).reg.entries, query)
  {
    var other, e := Confused(query);
    var grown := GrowRun(max, e, Skip(query) + 1);
    LookalikesTellApart(Run(max, grown).reg.entries, e, query, other);
    var searched := SearchNext(max, grown, query, other);
  }

  /** Cached search refines uncached search for exactly the plain queries. */
  lemma CachedSearchExact(max: nat, query: Query)
    requires 0 < max
    ensures (forall ops, now :: Answer(Run(max, ops), query, now) == Uncached(Run(max, ops).reg.entries, query)) <==>
            Plain(query)
  {
    if Plain(query) {
      forall ops, now
        ensures Answer(Run(max, ops), query, now) == Uncached(Run(max, ops).reg.entries, query)
      {
        CachedSearchRefinesUncached(max, ops, query, now);
      }
    } else {
      WrongAnswer(max, query);
    }
  }

  // ---------- one entry, before and after it is public ----------

  /** The search for everything. */
  const ALL: Query := Query(None, None, None, None, None)

  lemma AllIsPlain()
    ensures Plain(ALL) && Skip(ALL) == 0
  {
    TrimIsTrimmed("");
    BarFreeOneSplit(ALL);
    assert ParseType(None).None?;
  }

  /** The last entry is not found while it is not public, and is the first of the page when it is. */
  lemma FoundWhenPublic(hidden: seq<Entry>, shown: seq<Entry>, e: Entry, query: Query)
    requires Growing(hidden, e, Skip(query), APPROVED_PUBLIC_SAFE) && Grown(shown, e, Skip(query) + 1) && Matching(e, query)
    ensures Uncached(hidden, query) != Uncached(shown, query)
  {
    var n := Skip(query);
    forall i | 0 <= i < |shown|
      ensures Matching(shown[i], query)
    {
      assert LooksLike(shown[i], e);
    }
    SelectsAll(shown, query);
    FoundBelow(hidden, e, n, query);
    PageIsEmpty(hidden, query);
    PageIsEmpty(shown, query);
  }

  lemma {:induction false} FoundBelow(hidden: seq<Entry>, e: Entry, n: nat, query: Query)
    requires Growing(hidden, e, n, APPROVED_PUBLIC_SAFE)
    ensures |Select(hidden, query)| <= n
  {
    assert hidden == hidden[..n] + [hidden[n]];
    SelectLast(hidden[..n], hidden[n], query);
  }

  lemma {:induction false} SelectLast(entries: seq<Entry>, last: Entry, query: Query)
    requires !Matching(last, query)
    ensures |Select(entries + [last], query)| <= |entries|
  {
    if entries == [] {
      SelectsNone([last], query);
    } else {
      assert (entries + [last])[1..] == entries[1..] + [last];
      SelectLast(entries[1..], last, query);
    }
  }

  lemma {:induction false} PublishSweeps(reg: State, e: Entry, n: nat)
    requires e.status == PUBLISHED && Growing(reg.entries, e, n, APPROVED_PUBLIC_SAFE)
    ensures Sweeps(reg, Action.Publish(Decimal(n), 0))
    ensures Grown(Do(reg, Action.Publish(Decimal(n), 0)).entries, e, n + 1)
  {
    FoundLast(reg.entries, e, n, APPROVED_PUBLIC_SAFE);
    PublishedLast(reg, e, n);
  }

  /** The two quiet steps before it is published. */
  lemma {:induction false} QuietSteps(reg: State, e: Entry, n: nat)
    requires Grown(reg.entries, e, n)
    ensures !Sweeps(reg, Birth(e, Decimal(n)))
    ensures var born := Do(reg, Birth(e, Decimal(n)));
      && !Sweeps(born, Action.Approve(Decimal(n), 0))
      && Growing(Do(born, Action.Approve(Decimal(n), 0)).entries, e, n, APPROVED_PUBLIC_SAFE)
  {
    Born(reg, e, n);
    Approved(Do(reg, Birth(e, Decimal(n))), e, n);
  }
}
