/** Search and governance of one node, step by step: a search awaits the database between its cache miss and its `set`,
  and an action awaits its evidence between its update of the registry and its sweep of the cache. */
module SearchRace {
  import opened AsciiText
  import opened Normalization
  import opened RegistryLifecycle
  import opened RegistrySearch
  import opened SearchKey
  import opened RegistryService
  import opened Wrappers
  import Cache

  /** A cached result; the stamps tell when it was read and when it was stored, `at` is the time of storing. */
  datatype Kept = Kept(result: SearchResult, read: nat, stored: nat, at: int)

  type Line = Cache.Entry<Kept>

  /** A search after its miss, and after its read. */
  datatype Pending = Missed(query: Query) | HasRead(query: Query, result: SearchResult, read: nat)

  /** A change of what is public, and when its sweep ran, if it did. */
  datatype Change = Change(at: nat, swept: Option<nat>)

  datatype Node = Node(reg: State, cache: seq<Line>, searches: map<int, Pending>, changes: seq<Change>, clock: nat)

  datatype Event =
    | Ask(id: int, query: Query, now: int)
    | Read(id: int)
    | StoreResult(id: int, now: int)
    | Act(action: Action)
    | Sweep(change: nat)

  const IDLE: Node := Node(EMPTY, [], map[], [], 0)

  predicate Enabled(s: Node, e: Event) {
    match e
    case Ask(id, _, _) => id !in s.searches
    case Read(id) => id in s.searches && s.searches[id].Missed?
    case StoreResult(id, _) => id in s.searches && s.searches[id].HasRead?
    case Act(_) => true
    case Sweep(m) => m < |s.changes| && s.changes[m].swept.None?
  }

  function LineOf(p: Pending, clock: nat, now: int): Line
    requires p.HasRead?
  {
    Cache.Entry(CacheKey(p.query), Kept(p.result, p.read, clock, now), now + SEARCH_CACHE_TTL_MS)
  }

  function Happen(max: nat, s: Node, e: Event): Node
    requires Enabled(s, e)
  {
    var t := s.(clock := s.clock + 1);
    match e
    case Ask(id, query, now) =>
      var hit := Cache.Hit(s.cache, CacheKey(query), now);
      t.(cache := Cache.AfterGet(s.cache, CacheKey(query), now),
         searches := if hit.Some? then s.searches else s.searches[id := Missed(query)])
    case Read(id) =>
      var query := s.searches[id].query;
      t.(searches := s.searches[id := HasRead(query, Uncached(s.reg.entries, query), s.clock)])
    case StoreResult(id, now) =>
      t.(cache := Cache.Store(s.cache, max, LineOf(s.searches[id], s.clock, now)), searches := s.searches - {id})
    case Act(a) =>
      t.(reg := Do(s.reg, a), changes := if Sweeps(s.reg, a) then s.changes + [Change(s.clock, None)] else s.changes)
    case Sweep(m) =>
      t.(cache := Cache.Drop(s.cache, SWEEP), changes := s.changes[m := s.changes[m].(swept := Some(s.clock))])
  }

  /** The node after the events, if each is enabled when its turn comes. */
  function After(max: nat, events: seq<Event>): Option<Node> {
    if events == [] then Some(IDLE)
    else
      var s := After(max, events[..|events| - 1]);
      var e := events[|events| - 1];
      if s.None? || !Enabled(s.value, e) then None else Some(Happen(max, s.value, e))
  }

  /** The answer a search gives that asks now: the cached result, or the one it would read at once. */
  function AnswerNow(s: Node, query: Query, now: int): SearchResult {
    var hit := Cache.Hit(s.cache, CacheKey(query), now);
    if hit.Some? then hit.value.result else Uncached(s.reg.entries, query)
  }

  // ---------- what every event keeps ----------

  /** Nothing public has changed since the stamp. */
  ghost predicate Unchanged(s: Node, since: nat) {
    forall m :: 0 <= m < |s.changes| ==> s.changes[m].at < since
  }

  /** The result is what the search would compute now, for every plain query with the key. */
  ghost predicate Current(entries: seq<Entry>, key: string, result: SearchResult) {
    forall query :: Plain(query) && CacheKey(query) == key ==> result == Uncached(entries, query)
  }

  /** Every sweep so far ran before the stamp. */
  ghost predicate SweptBefore(changes: seq<Change>, stamp: nat) {
    forall m :: 0 <= m < |changes| && changes[m].swept.Some? ==> changes[m].swept.value < stamp
  }

  ghost predicate LineInv(s: Node, e: Line) {
    && e.value.read < e.value.stored < s.clock
    && e.expiresAt == e.value.at + SEARCH_CACHE_TTL_MS
    && Cache.Matches(SWEEP, e.key)
    && SweptBefore(s.changes, e.value.stored)
    && (Unchanged(s, e.value.read) ==> Current(s.reg.entries, e.key, e.value.result))
  }

  ghost predicate PendingInv(s: Node, p: Pending) {
    p.HasRead? ==> p.read < s.clock && (Unchanged(s, p.read) ==> Current(s.reg.entries, CacheKey(p.query), p.result))
  }

  ghost predicate Bounded(cache: seq<Line>, max: nat) {
    Cache.DistinctKeys(cache) && |cache| <= max
  }

  ghost predicate StampsInv(s: Node) {
    forall m :: 0 <= m < |s.changes| ==>
      s.changes[m].at < s.clock && (s.changes[m].swept.Some? ==> s.changes[m].swept.value < s.clock)
  }

  ghost predicate Inv(max: nat, s: Node) {
    && Bounded(s.cache, max) && StampsInv(s)
    && (forall e :: e in s.cache ==> LineInv(s, e))
    && (forall id :: id in s.searches ==> PendingInv(s, s.searches[id]))
  }

  lemma CurrentWhenRead(entries: seq<Entry>, query: Query)
    ensures Current(entries, CacheKey(query), Uncached(entries, query))
  {
    forall other | Plain(other) && CacheKey(other) == CacheKey(query)
      ensures Uncached(entries, query) == Uncached(entries, other)
    {
      KeyDeterminesResult(entries, other, query);
    }
  }

  lemma UnchangedAlike(s: Node, t: Node, since: nat)
    requires t.changes == s.changes
    ensures Unchanged(t, since) <==> Unchanged(s, since)
  {
  }

  /** A line stays good while only the clock runs. */
  lemma LineStays(s: Node, t: Node, e: Line)
    requires LineInv(s, e) && t.reg == s.reg && t.changes == s.changes && s.clock <= t.clock
    ensures LineInv(t, e)
  {
    UnchangedAlike(s, t, e.value.read);
  }

  lemma PendingStays(s: Node, t: Node, p: Pending)
    requires PendingInv(s, p) && t.reg == s.reg && t.changes == s.changes && s.clock <= t.clock
    ensures PendingInv(t, p)
  {
    if p.HasRead? { UnchangedAlike(s, t, p.read); }
  }

  lemma AskKeeps(max: nat, s: Node, e: Event)
    requires Inv(max, s) && Enabled(s, e) && e.Ask?
    ensures Inv(max, Happen(max, s, e))
  {
    var t := Happen(max, s, e);
    Cache.DropContents(s.cache, Cache.DeleteKey(CacheKey(e.query)));
    forall x | x in t.cache
      ensures LineInv(t, x)
    {
      LineStays(s, t, x);
    }
    forall id | id in t.searches
      ensures PendingInv(t, t.searches[id])
    {
      if id in s.searches { PendingStays(s, t, s.searches[id]); }
    }
  }

  lemma ReadKeeps(max: nat, s: Node, e: Event)
    requires Inv(max, s) && Enabled(s, e) && e.Read?
    ensures Inv(max, Happen(max, s, e))
  {
    var t := Happen(max, s, e);
    CurrentWhenRead(s.reg.entries, s.searches[e.id].query);
    forall x | x in t.cache
      ensures LineInv(t, x)
    {
      LineStays(s, t, x);
    }
    forall id | id in t.searches
      ensures PendingInv(t, t.searches[id])
    {
      if id != e.id { PendingStays(s, t, s.searches[id]); }
    }
  }

  lemma StoreKeeps(max: nat, s: Node, e: Event)
    requires 0 < max && Inv(max, s) && Enabled(s, e) && e.StoreResult?
    ensures Inv(max, Happen(max, s, e))
  {
    var t := Happen(max, s, e);
    var p := s.searches[e.id];
    var line := LineOf(p, s.clock, e.now);
    Cache.StoreContents(s.cache, max, line);
    assert PendingInv(s, p);
    assert LineInv(t, line) by {
      PrefixIsPrefix(p.query);
      assert Unchanged(t, p.read) ==> Unchanged(s, p.read);
    }
    forall x | x in t.cache
      ensures LineInv(t, x)
    {
      if x != line { LineStays(s, t, x); }
    }
    forall id | id in t.searches
      ensures PendingInv(t, t.searches[id])
    {
      PendingStays(s, t, s.searches[id]);
    }
  }

  /** An action that changes nothing public keeps every result current; one that does starts a new stretch. */
  lemma ActKeepsCurrent(s: Node, t: Node, a: Action, since: nat, key: string, result: SearchResult)
    requires since <= s.clock && Enabled(s, Act(a)) && t == Happen(0, s, Act(a))
    requires Unchanged(s, since) ==> Current(s.reg.entries, key, result)
    ensures Unchanged(t, since) ==> Current(t.reg.entries, key, result)
  {
    if Sweeps(s.reg, a) {
      assert t.changes[|s.changes|].at == s.clock;
    } else {
      forall query
        ensures Uncached(t.reg.entries, query) == Uncached(s.reg.entries, query)
      {
        UnsweptSame(s.reg, a, query);
      }
    }
  }

  lemma ActKeeps(max: nat, s: Node, e: Event)
    requires Inv(max, s) && Enabled(s, e) && e.Act?
    ensures Inv(max, Happen(max, s, e))
  {
    var t := Happen(max, s, e);
    assert forall m :: 0 <= m < |t.changes| ==>
            (m < |s.changes| && t.changes[m] == s.changes[m]) || t.changes[m] == Change(s.clock, None);
    forall x | x in t.cache
      ensures LineInv(t, x)
    {
      assert LineInv(s, x);
      ActKeepsCurrent(s, t, e.action, x.value.read, x.key, x.value.result);
    }
    forall id | id in t.searches
      ensures PendingInv(t, t.searches[id])
    {
      var p := s.searches[id];
      assert PendingInv(s, p);
      if p.HasRead? { ActKeepsCurrent(s, t, e.action, p.read, CacheKey(p.query), p.result); }
    }
  }

  lemma {:induction false} SweptEmpty(cache: seq<Line>)
    requires forall x :: x in cache ==> Cache.Matches(SWEEP, x.key)
    ensures Cache.Drop(cache, SWEEP) == []
  {
    if cache != [] {
      assert cache[0] in cache;
      SweptEmpty(cache[1..]);
    }
  }

  lemma SweepKeeps(max: nat, s: Node, e: Event)
    requires Inv(max, s) && Enabled(s, e) && e.Sweep?
    ensures Inv(max, Happen(max, s, e))
  {
    var t := Happen(max, s, e);
    assert forall x :: x in s.cache ==> LineInv(s, x);
    SweptEmpty(s.cache);
    assert forall since :: Unchanged(t, since) ==> Unchanged(s, since) by {
      assert forall m :: 0 <= m < |s.changes| ==> t.changes[m].at == s.changes[m].at;
    }
    forall id | id in t.searches
      ensures PendingInv(t, t.searches[id])
    {
      assert PendingInv(s, s.searches[id]);
    }
  }

  lemma StepKeepsInv(max: nat, s: Node, e: Event)
    requires 0 < max && Inv(max, s) && Enabled(s, e)
    ensures Inv(max, Happen(max, s, e))
  {
    match e
    case Ask(_, _, _) => AskKeeps(max, s, e);
    case Read(_) => ReadKeeps(max, s, e);
    case StoreResult(_, _) => StoreKeeps(max, s, e);
    case Act(_) => ActKeeps(max, s, e);
    case Sweep(_) => SweepKeeps(max, s, e);
  }

  lemma {:induction false} EveryRun(max: nat, events: seq<Event>)
    requires 0 < max && After(max, events).Some?
    ensures Inv(max, After(max, events).value)
  {
    if events != [] {
      var before := events[..|events| - 1];
      EveryRun(max, before);
      StepKeepsInv(max, After(max, before).value, events[|events| - 1]);
    }
  }

  /** Change m explains why a line is out of date: it came after the read, and its sweep has not run yet or ran before the
      line was stored. */
  predicate Raced(s: Node, m: nat, e: Line)
    requires m < |s.changes|
  {
    s.changes[m].at >= e.value.read && (s.changes[m].swept.None? || s.changes[m].swept.value < e.value.stored)
  }

  /** In every run a plain query is answered as if uncached, unless its cached result was read before a change of what is
      public whose sweep is still to come or came before the result was stored; and then only until the result expires. */
  lemma {:induction false} RightUnlessRaced(max: nat, events: seq<Event>, query: Query, now: int)
    requires 0 < max && After(max, events).Some? && Plain(query)
    requires AnswerNow(After(max, events).value, query, now) != Uncached(After(max, events).value.reg.entries, query)
    ensures var s := After(max, events).value;
      exists e, m: nat :: e in s.cache && e.key == CacheKey(query) && m < |s.changes| && Raced(s, m, e)
                          && now <= e.value.at + SEARCH_CACHE_TTL_MS
  {
    EveryRun(max, events);
    var s := After(max, events).value;
    var e := Cache.Lookup(s.cache, CacheKey(query)).value;
    assert LineInv(s, e);
    assert !Current(s.reg.entries, e.key, e.value.result);
    var m :| 0 <= m < |s.changes| && !(s.changes[m].at < e.value.read);
    assert Raced(s, m, e);
  }

  // ---------- the race is real ----------

  lemma NextEvent(max: nat, events: seq<Event>, e: Event) returns (r: seq<Event>)
    requires After(max, events).Some? && Enabled(After(max, events).value, e)
    ensures After(max, r) == Some(Happen(max, After(max, events).value, e))
  {
    r := events + [e];
    assert r[..|events|] == events;
  }

  /** No search is pending and nothing is cached. */
  function Idle(reg: State, changes: seq<Change>, clock: nat): Node {
    Node(reg, [], map[], changes, clock)
  }

  ghost predicate AllSwept(changes: seq<Change>) {
    forall m :: 0 <= m < |changes| ==> changes[m].swept.Some?
  }

  lemma QuietHappens(max: nat, reg: State, changes: seq<Change>, clock: nat, a: Action)
    requires !Sweeps(reg, a)
    ensures Happen(max, Idle(reg, changes, clock), Act(a)) == Idle(Do(reg, a), changes, clock + 1)
  {
  }

  lemma AskHappens(max: nat, reg: State, changes: seq<Change>, clock: nat, query: Query)
    ensures Happen(max, Idle(reg, changes, clock), Ask(0, query, 0)) ==
            Node(reg, [], map[0 := Missed(query)], changes, clock + 1)
  {
    assert Cache.Lookup<Kept>([], CacheKey(query)).None?;
  }

  lemma ReadHappens(max: nat, reg: State, changes: seq<Change>, clock: nat, query: Query)
    ensures Happen(max, Node(reg, [], map[0 := Missed(query)], changes, clock), Read(0)) ==
            Node(reg, [], map[0 := HasRead(query, Uncached(reg.entries, query), clock)], changes, clock + 1)
  {
    var s := Node(reg, [], map[0 := Missed(query)], changes, clock);
    assert s.searches[0 := HasRead(query, Uncached(reg.entries, query), clock)] ==
            map[0 := HasRead(query, Uncached(reg.entries, query), clock)];
  }

  lemma QuietRun(max: nat, events: seq<Event>, reg: State, changes: seq<Change>, clock: nat, a: Action)
    returns (r: seq<Event>)
    requires After(max, events) == Some(Idle(reg, changes, clock)) && !Sweeps(reg, a)
    ensures After(max, r) == Some(Idle(Do(reg, a), changes, clock + 1))
  {
    QuietHappens(max, reg, changes, clock, a);
    r := NextEvent(max, events, Act(a));
  }

  lemma AskNext(max: nat, events: seq<Event>, reg: State, changes: seq<Change>, clock: nat, query: Query)
    returns (r: seq<Event>)
    requires After(max, events) == Some(Idle(reg, changes, clock))
    ensures After(max, r) == Some(Node(reg, [], map[0 := Missed(query)], changes, clock + 1))
  {
    AskHappens(max, reg, changes, clock, query);
    r := NextEvent(max, events, Ask(0, query, 0));
  }

  lemma ReadNext(max: nat, events: seq<Event>, reg: State, changes: seq<Change>, clock: nat, query: Query)
    returns (r: seq<Event>)
    requires After(max, events) == Some(Node(reg, [], map[0 := Missed(query)], changes, clock))
    ensures After(max, r) ==
            Some(Node(reg, [], map[0 := HasRead(query, Uncached(reg.entries, query), clock)], changes, clock + 1))
  {
    ReadHappens(max, reg, changes, clock, query);
    r := NextEvent(max, events, Read(0));
  }

  lemma TwoQuietSteps(max: nat, events: seq<Event>, reg: State, changes: seq<Change>, clock: nat, a: Action, b: Action)
    returns (r: seq<Event>)
    requires After(max, events) == Some(Idle(reg, changes, clock)) && !Sweeps(reg, a) && !Sweeps(Do(reg, a), b)
    ensures After(max, r) == Some(Idle(Do(Do(reg, a), b), changes, clock + 2))
  {
    var first := QuietRun(max, events, reg, changes, clock, a);
    r := QuietRun(max, first, Do(reg, a), changes, clock + 1, b);
  }

  lemma ChangeHappens(max: nat, reg: State, searches: map<int, Pending>, changes: seq<Change>, clock: nat, a: Action)
    requires Sweeps(reg, a)
    ensures Happen(max, Node(reg, [], searches, changes, clock), Act(a)) ==
            Node(Do(reg, a), [], searches, changes + [Change(clock, None)], clock + 1)
  {
  }

  lemma SweepHappens(max: nat, reg: State, searches: map<int, Pending>, changes: seq<Change>, clock: nat)
    ensures Happen(max, Node(reg, [], searches, changes + [Change(clock, None)], clock + 1), Sweep(|changes|)) ==
            Node(reg, [], searches, changes + [Change(clock, Some(clock + 1))], clock + 2)
  {
    assert (changes + [Change(clock, None)])[|changes| := Change(clock, Some(clock + 1))] ==
            changes + [Change(clock, Some(clock + 1))];
  }

  /** A change of what is public, and its sweep. */
  lemma ChangeAndSweep(max: nat, events: seq<Event>, reg: State, searches: map<int, Pending>, changes: seq<Change>,
                       clock: nat, a: Action)
    returns (r: seq<Event>)
    requires After(max, events) == Some(Node(reg, [], searches, changes, clock)) && Sweeps(reg, a)
    ensures After(max, r) == Some(Node(Do(reg, a), [], searches, changes + [Change(clock, Some(clock + 1))], clock + 2))
  {
    ChangeHappens(max, reg, searches, changes, clock, a);
    var changed := NextEvent(max, events, Act(a));
    SweepHappens(max, Do(reg, a), searches, changes, clock);
    r := NextEvent(max, changed, Sweep(|changes|));
  }

  /** One more entry is approved and not yet public. */
  lemma ApproveNext(max: nat, events: seq<Event>, reg: State, changes: seq<Change>, clock: nat, e: Entry, n: nat)
    returns (r: seq<Event>, next: State)
    requires After(max, events) == Some(Idle(reg, changes, clock)) && Grown(reg.entries, e, n)
    ensures After(max, r) == Some(Idle(next, changes, clock + 2)) && Growing(next.entries, e, n, APPROVED_PUBLIC_SAFE)
  {
    QuietSteps(reg, e, n);
    var birth, approve := Birth(e, Decimal(n)), Action.Approve(Decimal(n), 0);
    r := TwoQuietSteps(max, events, reg, changes, clock, birth, approve);
    next := Do(Do(reg, birth), approve);
  }

  /** The n published entries that a query has to skip. */
  lemma {:induction false} GrowRun(max: nat, e: Entry, n: nat)
    returns (events: seq<Event>, reg: State, changes: seq<Change>, clock: nat)
    requires e.status == PUBLISHED
    ensures After(max, events) == Some(Idle(reg, changes, clock)) && AllSwept(changes) && Grown(reg.entries, e, n)
  {
    if n == 0 {
      events, reg, changes, clock := [], EMPTY, [], 0;
    } else {
      events, reg, changes, clock := GrowRun(max, e, n - 1);
      events, reg := ApproveNext(max, events, reg, changes, clock, e, n - 1);
      PublishSweeps(reg, e, n - 1);
      var publish := Action.Publish(Decimal(n - 1), 0);
      events := ChangeAndSweep(max, events, reg, map[], changes, clock + 2, publish);
      reg, changes, clock := Do(reg, publish), changes + [Change(clock + 2, Some(clock + 3))], clock + 4;
    }
  }

  /** The change and its sweep come before the result is stored. */
  lemma RaceRun(max: nat, events: seq<Event>, reg: State, changes: seq<Change>, clock: nat, p: Pending, a: Action)
    returns (r: seq<Event>)
    requires p.HasRead? && After(max, events) == Some(Node(reg, [], map[0 := p], changes, clock)) && Sweeps(reg, a)
    ensures After(max, r) ==
            Some(Node(Do(reg, a), [LineOf(p, clock + 2, 0)], map[], changes + [Change(clock, Some(clock + 1))], clock + 3))
  {
    r := ChangeAndSweep(max, events, reg, map[0 := p], changes, clock, a);
    assert map[0 := p] - {0} == map[];
    r := NextEvent(max, r, StoreResult(0, 0));
  }

  /** A search for the query misses and reads, the action changes what is public and sweeps, the search stores. */
  lemma RaceFor(max: nat, events: seq<Event>, reg: State, changes: seq<Change>, clock: nat, query: Query, a: Action)
    returns (r: seq<Event>)
    requires After(max, events) == Some(Idle(reg, changes, clock)) && AllSwept(changes) && Sweeps(reg, a)
    requires Uncached(reg.entries, query) != Uncached(Do(reg, a).entries, query)
    ensures After(max, r).Some? && WrongAtRest(After(max, r).value, query)
  {
    var p := HasRead(query, Uncached(reg.entries, query), clock + 1);
    var read := MissAndRead(max, events, reg, changes, clock, query);
    r := RaceRun(max, read, reg, changes, clock + 2, p, a);
    EndsWrong(After(max, r).value, Do(reg, a), changes, clock, p);
  }

  lemma MissAndRead(max: nat, events: seq<Event>, reg: State, changes: seq<Change>, clock: nat, query: Query)
    returns (r: seq<Event>)
    requires After(max, events) == Some(Idle(reg, changes, clock))
    ensures var p := HasRead(query, Uncached(reg.entries, query), clock + 1);
      After(max, r) == Some(Node(reg, [], map[0 := p], changes, clock + 2))
  {
    var asked := AskNext(max, events, reg, changes, clock, query);
    r := ReadNext(max, asked, reg, changes, clock + 1, query);
  }

  lemma EndsWrong(s: Node, reg: State, changes: seq<Change>, clock: nat, p: Pending)
    requires p.HasRead? && AllSwept(changes) && p.result != Uncached(reg.entries, p.query)
    requires s == Node(reg, [LineOf(p, clock + 4, 0)], map[], changes + [Change(clock + 2, Some(clock + 3))], clock + 5)
    ensures WrongAtRest(s, p.query)
  {
    WrongUntilExpiry(s, p, clock + 4);
  }

  /** All is done, every change swept and no search pending, and the query is answered wrong until the cached result
      expires. */
  ghost predicate WrongAtRest(s: Node, query: Query) {
    && s.searches == map[] && AllSwept(s.changes)
    && forall now :: AnswerNow(s, query, now) != Uncached(s.reg.entries, query) <==> now <= SEARCH_CACHE_TTL_MS
  }

  lemma WrongUntilExpiry(s: Node, p: Pending, clock: nat)
    requires p.HasRead? && s.cache == [LineOf(p, clock, 0)] && p.result != Uncached(s.reg.entries, p.query)
    ensures forall now :: AnswerNow(s, p.query, now) != Uncached(s.reg.entries, p.query) <==> now <= SEARCH_CACHE_TTL_MS
  {
  }

  /** Once the entries before it are public, an entry that the query asks for can race with it. */
  lemma RaceWith(max: nat, events: seq<Event>, reg: State, changes: seq<Change>, clock: nat, query: Query, e: Entry)
    returns (r: seq<Event>)
    requires After(max, events) == Some(Idle(reg, changes, clock)) && AllSwept(changes)
    requires Grown(reg.entries, e, Skip(query)) && e.status == PUBLISHED && Matching(e, query)
    ensures After(max, r).Some? && WrongAtRest(After(max, r).value, query)
  {
    var n := Skip(query);
    var approved, next := ApproveNext(max, events, reg, changes, clock, e, n);
    var publish := Action.Publish(Decimal(n), 0);
    PublishSweeps(next, e, n);
    FoundWhenPublic(next.entries, Do(next, publish).entries, e, query);
    r := RaceFor(max, approved, next, changes, clock + 2, query, publish);
  }

  /** The race is real: every query, on whatever page, has a run that ends at rest and answers it wrong. */
  lemma RaceReached(max: nat, query: Query) returns (events: seq<Event>)
    ensures After(max, events).Some? && WrongAtRest(After(max, events).value, query)
  {
    var e := SomeWanted(query);
    var grown, reg, changes, clock := GrowRun(max, e, Skip(query));
    events := RaceWith(max, grown, reg, changes, clock, query, e);
  }

  lemma SomeWanted(query: Query) returns (e: Entry)
    ensures e.status == PUBLISHED && Matching(e, query)
  {
    var kind := if ParseType(query.kind).Some? then ParseType(query.kind).value else OTHER;
    e := Wanted(query, kind);
    WantedMatches(query, kind);
  }
}
