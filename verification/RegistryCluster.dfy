/** Any number of nodes over one registry: each caches its own searches, sweeps its own cache when what is public changes,
  and broadcasts the sweep. The broker delivers each message once to every node, the sender included, in any order and
  after any delay. */
module RegistryCluster {
  import opened AsciiText
  import opened Normalization
  import opened RegistryLifecycle
  import opened RegistrySearch
  import opened SearchKey
  import opened RegistryService
  import opened Wrappers
  import Cache
  import InvalidationProtocol

  datatype Node = Node(id: string, cache: seq<CacheEntry>)

  datatype Cluster = Cluster(reg: State, nodes: seq<Node>, log: seq<Cache.Wire>, inFlight: set<(nat, nat)>)

  datatype Event =
    | SearchAt(node: nat, query: Query, now: int)
    | GovernAt(node: nat, action: Action)
    | DeliverTo(sent: nat, node: nat)

  /** The node ids and the bound on every cache. */
  datatype System = System(ids: seq<string>, max: nat)

  function Initial(sys: System): Cluster {
    Cluster(EMPTY, seq(|sys.ids|, i requires 0 <= i < |sys.ids| => Node(sys.ids[i], [])), [], {})
  }

  predicate Enabled(s: Cluster, e: Event) {
    e.node < |s.nodes| && (e.DeliverTo? ==> e.sent < |s.log| && (e.sent, e.node) in s.inFlight)
  }

  /** The registry and the cache as one node sees them. */
  function View(s: Cluster, i: nat): World
    requires i < |s.nodes|
  {
    World(s.reg, s.nodes[i].cache)
  }

  function WithCache(s: Cluster, i: nat, cache: seq<CacheEntry>): seq<Node>
    requires i < |s.nodes|
  {
    s.nodes[i := s.nodes[i].(cache := cache)]
  }

  function Happen(sys: System, s: Cluster, e: Event): Cluster
    requires Enabled(s, e)
  {
    var i := e.node;
    match e
    case SearchAt(_, query, now) => s.(nodes := WithCache(s, i, Step(View(s, i), sys.max, Search(query, now)).cache))
    case GovernAt(_, a) =>
      var w := Step(View(s, i), sys.max, Govern(a));
      var t := s.(reg := w.reg, nodes := WithCache(s, i, w.cache));
      if Sweeps(s.reg, a)
      then t.(log := s.log + [Cache.Wire(SWEEP, s.nodes[i].id)],
              inFlight := s.inFlight + InvalidationProtocol.Broadcast(|s.log|, |s.nodes|))
      else t
    case DeliverTo(m, _) =>
      var t := s.(inFlight := s.inFlight - {(m, i)});
      if s.log[m].nodeId == s.nodes[i].id then t
      else t.(nodes := WithCache(s, i, Cache.Drop(s.nodes[i].cache, s.log[m].msg)))
  }

  /** The cluster after the events, if each is enabled when its turn comes. */
  function After(sys: System, events: seq<Event>): Option<Cluster> {
    if events == [] then Some(Initial(sys))
    else
      var s := After(sys, events[..|events| - 1]);
      var e := events[|events| - 1];
      if s.None? || !Enabled(s.value, e) then None else Some(Happen(sys, s.value, e))
  }

  // ---------- what every event keeps ----------

  /** A sweep by another node is on its way to this one. */
  ghost predicate SweepComing(s: Cluster, i: nat)
    requires i < |s.nodes|
  {
    exists m: nat :: m < |s.log| && (m, i) in s.inFlight && s.log[m].nodeId != s.nodes[i].id
  }

  ghost predicate Bounded(cache: seq<CacheEntry>, max: nat) {
    Cache.DistinctKeys(cache) && |cache| <= max
  }

  ghost predicate NodeInv(sys: System, s: Cluster, i: nat)
    requires i < |s.nodes|
  {
    Bounded(s.nodes[i].cache, sys.max) && (SweepComing(s, i) || CacheRight(View(s, i), sys.max))
  }

  ghost predicate Inv(sys: System, s: Cluster) {
    && |s.nodes| == |sys.ids|
    && (forall i :: 0 <= i < |s.nodes| ==> s.nodes[i].id == sys.ids[i])
    && (forall m :: 0 <= m < |s.log| ==> s.log[m].msg == SWEEP)
    && (forall i: nat :: i < |s.nodes| ==> NodeInv(sys, s, i))
  }

  lemma SearchKeepsBound(w: World, max: nat, query: Query, now: int)
    requires 0 < max && Bounded(w.cache, max)
    ensures Bounded(Step(w, max, Search(query, now)).cache, max)
  {
    var key := CacheKey(query);
    Cache.DropContents(w.cache, Cache.DeleteKey(key));
    var looked := Cache.AfterGet(w.cache, key, now);
    Cache.StoreContents(looked, max, Cache.Entry(key, Uncached(w.reg.entries, query), now + SEARCH_CACHE_TTL_MS));
  }

  lemma SearchAtKeeps(sys: System, s: Cluster, e: Event, i: nat)
    requires 0 < sys.max && Inv(sys, s) && Enabled(s, e) && e.SearchAt? && i < |s.nodes|
    ensures NodeInv(sys, Happen(sys, s, e), i)
  {
    var t := Happen(sys, s, e);
    assert NodeInv(sys, s, i);
    assert SweepComing(s, i) ==> SweepComing(t, i);
    if i == e.node {
      SearchKeepsBound(View(s, i), sys.max, e.query, e.now);
      if !SweepComing(s, i) { SearchKeepsRight(View(s, i), sys.max, e.query, e.now); }
    }
  }

  lemma StillComing(s: Cluster, t: Cluster, i: nat)
    requires i < |s.nodes| == |t.nodes| && s.nodes[i].id == t.nodes[i].id
    requires s.log <= t.log && s.inFlight <= t.inFlight && SweepComing(s, i)
    ensures SweepComing(t, i)
  {
    var m: nat :| m < |s.log| && (m, i) in s.inFlight && s.log[m].nodeId != s.nodes[i].id;
    assert t.log[m] == s.log[m];
  }

  lemma GovernAtKeeps(sys: System, s: Cluster, e: Event, i: nat)
    requires Inv(sys, s) && Enabled(s, e) && e.GovernAt? && i < |s.nodes| && InvalidationProtocol.DistinctIds(sys.ids)
    ensures NodeInv(sys, Happen(sys, s, e), i)
  {
    var t := Happen(sys, s, e);
    assert NodeInv(sys, s, i);
    Cache.DropContents(s.nodes[i].cache, SWEEP);
    if SweepComing(s, i) {
      StillComing(s, t, i);
    } else if i == e.node || !Sweeps(s.reg, e.action) {
      GovernKeepsRight(View(s, i), sys.max, e.action);
      assert View(t, i) == Step(View(s, i), sys.max, Govern(e.action));
    } else {
      assert t.log[|s.log|].nodeId == sys.ids[e.node] && (|s.log|, i) in t.inFlight;
      assert SweepComing(t, i);
    }
  }

  /** A swept cache holds no search result, so none that is out of date. */
  lemma SweptRight(w: World, max: nat)
    requires Bounded(w.cache, max)
    ensures Bounded(Cache.Drop(w.cache, SWEEP), max) && CacheRight(w.(cache := Cache.Drop(w.cache, SWEEP)), max)
  {
    Cache.DropContents(w.cache, SWEEP);
    forall e, query | e in Cache.Drop(w.cache, SWEEP)
      ensures CacheKey(query) != e.key
    {
      PrefixIsPrefix(query);
    }
  }

  lemma DeliverToKeeps(sys: System, s: Cluster, e: Event, i: nat)
    requires Inv(sys, s) && Enabled(s, e) && e.DeliverTo? && i < |s.nodes|
    ensures NodeInv(sys, Happen(sys, s, e), i)
  {
    var t := Happen(sys, s, e);
    assert NodeInv(sys, s, i);
    if i == e.node && s.log[e.sent].nodeId != s.nodes[i].id {
      SweptRight(View(s, i), sys.max);
      assert View(t, i) == View(s, i).(cache := Cache.Drop(s.nodes[i].cache, SWEEP));
    } else {
      assert View(t, i) == View(s, i) && t.nodes[i] == s.nodes[i];
      if SweepComing(s, i) {
        var m: nat :| m < |s.log| && (m, i) in s.inFlight && s.log[m].nodeId != s.nodes[i].id;
        assert (m, i) in t.inFlight;
        assert SweepComing(t, i);
      }
    }
  }

  lemma StepKeepsInv(sys: System, s: Cluster, e: Event)
    requires 0 < sys.max && InvalidationProtocol.DistinctIds(sys.ids) && Inv(sys, s) && Enabled(s, e)
    ensures Inv(sys, Happen(sys, s, e))
  {
    forall i: nat | i < |s.nodes|
      ensures NodeInv(sys, Happen(sys, s, e), i)
    {
      match e
      case SearchAt(_, _, _) => SearchAtKeeps(sys, s, e, i);
      case GovernAt(_, _) => GovernAtKeeps(sys, s, e, i);
      case DeliverTo(_, _) => DeliverToKeeps(sys, s, e, i);
    }
  }

  lemma {:induction false} ReachableInv(sys: System, events: seq<Event>)
    requires 0 < sys.max && InvalidationProtocol.DistinctIds(sys.ids) && After(sys, events).Some?
    ensures Inv(sys, After(sys, events).value)
  {
    if events != [] {
      var before := events[..|events| - 1];
      ReachableInv(sys, before);
      StepKeepsInv(sys, After(sys, before).value, events[|events| - 1]);
    }
  }

  /** In every run of nodes with distinct ids, a node answers a plain query with the result recomputed from the registry as
      it is, unless a sweep by another node is still on its way to it; so once nothing is in flight, all nodes do. */
  lemma {:induction false} EveryNodeRight(sys: System, events: seq<Event>, i: nat, query: Query, now: int)
    requires 0 < sys.max && InvalidationProtocol.DistinctIds(sys.ids) && After(sys, events).Some?
    requires i < |After(sys, events).value.nodes| && Plain(query)
    ensures var s := After(sys, events).value;
      || Answer(View(s, i), query, now) == Uncached(s.reg.entries, query)
      || SweepComing(s, i)
    ensures var s := After(sys, events).value;
      s.inFlight == {} ==> Answer(View(s, i), query, now) == Uncached(s.reg.entries, query)
  {
    ReachableInv(sys, events);
    var s := After(sys, events).value;
    assert NodeInv(sys, s, i);
    if CacheRight(View(s, i), sys.max) { AnswerRight(View(s, i), sys.max, query, now); }
  }

  lemma AnswerRight(w: World, max: nat, query: Query, now: int)
    requires CacheRight(w, max) && Plain(query)
    ensures Answer(w, query, now) == Uncached(w.reg.entries, query)
  {
    var hit := Cache.Lookup(w.cache, CacheKey(query));
    if hit.Some? { assert Right(hit.value, w.reg.entries); }
  }

  // ---------- nodes that share an id ----------

  lemma NextEvent(sys: System, events: seq<Event>, e: Event) returns (r: seq<Event>)
    requires After(sys, events).Some? && Enabled(After(sys, events).value, e)
    ensures After(sys, r) == Some(Happen(sys, After(sys, events).value, e))
  {
    r := events + [e];
    assert r[..|events|] == events;
  }

  /** Everything but the registry and the caches is as at the start. */
  ghost predicate Quiet(sys: System, s: Cluster) {
    && |s.nodes| == |sys.ids| && (forall k :: 0 <= k < |sys.ids| ==> s.nodes[k].id == sys.ids[k])
    && s.log == [] && s.inFlight == {} && forall k :: 0 <= k < |sys.ids| ==> s.nodes[k].cache == []
  }

  /** An action that sweeps nothing changes the registry only. */
  lemma QuietAction(sys: System, s: Cluster, i: nat, a: Action)
    requires Quiet(sys, s) && i < |s.nodes| && !Sweeps(s.reg, a)
    ensures Happen(sys, s, GovernAt(i, a)) == s.(reg := Do(s.reg, a))
  {
    assert WithCache(s, i, s.nodes[i].cache) == s.nodes;
  }

  lemma TwoQuietSteps(sys: System, i: nat, a: Action, b: Action) returns (events: seq<Event>)
    requires i < |sys.ids| && !Sweeps(EMPTY, a) && !Sweeps(Do(EMPTY, a), b)
    ensures After(sys, events).Some? && Quiet(sys, After(sys, events).value)
    ensures After(sys, events).value.reg == Do(Do(EMPTY, a), b)
  {
    var s := Initial(sys);
    QuietAction(sys, s, i, a);
    var one := NextEvent(sys, [], GovernAt(i, a));
    QuietAction(sys, After(sys, one).value, i, b);
    events := NextEvent(sys, one, GovernAt(i, b));
  }

  /** One entry has gone through its approval at node i. */
  lemma ApprovedRun(sys: System, i: nat, e: Entry) returns (events: seq<Event>)
    requires i < |sys.ids|
    ensures After(sys, events).Some? && Quiet(sys, After(sys, events).value)
    ensures Growing(After(sys, events).value.reg.entries, e, 0, APPROVED_PUBLIC_SAFE)
  {
    QuietSteps(EMPTY, e, 0);
    events := TwoQuietSteps(sys, i, Birth(e, Decimal(0)), Action.Approve(Decimal(0), 0));
  }

  /** The nodes have their ids, and no message was ever sent. */
  ghost predicate Silent(sys: System, s: Cluster) {
    && |s.nodes| == |sys.ids| && (forall k :: 0 <= k < |sys.ids| ==> s.nodes[k].id == sys.ids[k])
    && s.log == [] && s.inFlight == {}
  }

  function Found(entries: seq<Entry>, query: Query): CacheEntry {
    Cache.Entry(CacheKey(query), Uncached(entries, query), SEARCH_CACHE_TTL_MS)
  }

  /** Node j has cached what it found for the query. */
  lemma SearchHappens(sys: System, s: Cluster, j: nat, query: Query)
    requires 0 < sys.max && Quiet(sys, s) && j < |s.nodes|
    ensures var t := Happen(sys, s, SearchAt(j, query, 0));
      Silent(sys, t) && t.reg == s.reg && t.nodes[j].cache == [Found(s.reg.entries, query)]
  {
    FirstSearch(View(s, j), sys.max, query);
  }

  /** The first message is still on its way to exactly the nodes from n on. */
  ghost predicate DeliveredTo(s: Cluster, wire: Cache.Wire, n: nat) {
    && n <= |s.nodes| && s.log == [wire]
    && forall x: (nat, nat) :: x in s.inFlight <==> x.0 == 0 && n <= x.1 < |s.nodes|
  }

  /** What is swept at node i reaches node j as a message only. */
  lemma SweepHappens(sys: System, s: Cluster, i: nat, j: nat, a: Action)
    requires Silent(sys, s) && i < |s.nodes| && j < |s.nodes| && i != j && Sweeps(s.reg, a)
    ensures var t := Happen(sys, s, GovernAt(i, a));
      && DeliveredTo(t, Cache.Wire(SWEEP, sys.ids[i]), 0) && |t.nodes| == |s.nodes| && t.nodes[j] == s.nodes[j]
      && t.reg == Do(s.reg, a)
  {
    var t := Happen(sys, s, GovernAt(i, a));
    assert t.log == [Cache.Wire(SWEEP, sys.ids[i])];
    BroadcastToAll(t, s.inFlight, |s.nodes|);
  }

  lemma {:induction false} BroadcastToAll(t: Cluster, before: set<(nat, nat)>, n: nat)
    requires before == {} && t.inFlight == before + InvalidationProtocol.Broadcast(0, n)
    ensures forall x: (nat, nat) :: x in t.inFlight <==> x.0 == 0 && 0 <= x.1 < n
  {
    forall x: (nat, nat)
      ensures x in t.inFlight <==> x.0 == 0 && 0 <= x.1 < n
    {
      assert (x.0, x.1) in InvalidationProtocol.Broadcast(0, n) <==> x.0 == 0 && x.1 < n;
    }
  }

  lemma DeliverOne(sys: System, s: Cluster, wire: Cache.Wire, j: nat, n: nat)
    requires DeliveredTo(s, wire, n) && n < |s.nodes| && j < |s.nodes| && s.nodes[j].id == wire.nodeId
    ensures (0, n) in s.inFlight
    ensures var t := Happen(sys, s, DeliverTo(0, n));
      DeliveredTo(t, wire, n + 1) && t.reg == s.reg && |t.nodes| == |s.nodes| && t.nodes[j] == s.nodes[j]
  {
    assert (0, n) in s.inFlight;
    var t := Happen(sys, s, DeliverTo(0, n));
    assert t.inFlight == s.inFlight - {(0, n)};
  }

  /** Delivering a message to all nodes leaves a node alone that has the id of the sender. */
  lemma {:induction false} DeliverAll(sys: System, events: seq<Event>, wire: Cache.Wire, j: nat, n: nat)
    returns (r: seq<Event>)
    requires After(sys, events).Some? && DeliveredTo(After(sys, events).value, wire, n)
    requires j < |After(sys, events).value.nodes| && After(sys, events).value.nodes[j].id == wire.nodeId
    ensures After(sys, r).Some?
    ensures var s, t := After(sys, events).value, After(sys, r).value;
      t.inFlight == {} && t.reg == s.reg && |t.nodes| == |s.nodes| && t.nodes[j] == s.nodes[j]
    decreases |After(sys, events).value.nodes| - n
  {
    var s := After(sys, events).value;
    if n == |s.nodes| {
      r := events;
      assert forall x: (nat, nat) :: x !in s.inFlight;
    } else {
      DeliverOne(sys, s, wire, j, n);
      var next := NextEvent(sys, events, DeliverTo(0, n));
      r := DeliverAll(sys, next, wire, j, n + 1);
    }
  }

  lemma StaleAnswer(t: Cluster, j: nat, entries: seq<Entry>, query: Query)
    requires j < |t.nodes| && t.nodes[j].cache == [Found(entries, query)]
    ensures Answer(View(t, j), query, 0) == Uncached(entries, query)
  {
    HitOfOne(t.reg, Uncached(entries, query), CacheKey(query), query);
  }

  /** A search at one node, then an action at another with the same id, and all messages delivered. */
  lemma MissedSweep(sys: System, events: seq<Event>, i: nat, j: nat, query: Query, a: Action) returns (r: seq<Event>)
    requires 0 < sys.max && i < |sys.ids| && j < |sys.ids| && i != j && sys.ids[i] == sys.ids[j]
    requires After(sys, events).Some? && Quiet(sys, After(sys, events).value) && Sweeps(After(sys, events).value.reg, a)
    ensures After(sys, r).Some? && j < |After(sys, r).value.nodes|
    ensures var s, t := After(sys, events).value, After(sys, r).value;
      t.inFlight == {} && t.reg == Do(s.reg, a) && Answer(View(t, j), query, 0) == Uncached(s.reg.entries, query)
  {
    var s := After(sys, events).value;
    SearchHappens(sys, s, j, query);
    var searched := NextEvent(sys, events, SearchAt(j, query, 0));
    SweepHappens(sys, After(sys, searched).value, i, j, a);
    var acted := NextEvent(sys, searched, GovernAt(i, a));
    r := DeliverAll(sys, acted, Cache.Wire(SWEEP, sys.ids[i]), j, 0);
    StaleAnswer(After(sys, r).value, j, s.reg.entries, query);
  }

  /** With a shared id some run ends, nothing in flight, with a node that answers a plain query wrong. */
  lemma SharedIdAnswersWrong(sys: System, i: nat, j: nat) returns (events: seq<Event>)
    requires 0 < sys.max && i < |sys.ids| && j < |sys.ids| && i != j && sys.ids[i] == sys.ids[j]
    ensures After(sys, events).Some? && j < |After(sys, events).value.nodes| && Plain(ALL)
    ensures var s := After(sys, events).value;
      s.inFlight == {} && Answer(View(s, j), ALL, 0) != Uncached(s.reg.entries, ALL)
  {
    AllIsPlain();
    var e := Wanted(ALL, OTHER);
    WantedMatches(ALL, OTHER);
    var approved := ApprovedRun(sys, i, e);
    var s := After(sys, approved).value;
    PublishSweeps(s.reg, e, 0);
    events := MissedSweep(sys, approved, i, j, ALL, Action.Publish(Decimal(0), 0));
    FoundWhenPublic(s.reg.entries, After(sys, events).value.reg.entries, e, ALL);
  }

  /** All nodes answer all plain queries right in all runs, once nothing is in flight. */
  ghost predicate AllRight(sys: System) {
    forall events, i: nat, query, now ::
      After(sys, events).Some? && After(sys, events).value.inFlight == {} && i < |After(sys, events).value.nodes|
        && Plain(query) ==>
        Answer(View(After(sys, events).value, i), query, now) == Uncached(After(sys, events).value.reg.entries, query)
  }

  /** That is so exactly when the node ids are distinct. */
  lemma AllRightIffDistinctIds(sys: System)
    requires 0 < sys.max
    ensures AllRight(sys) <==> InvalidationProtocol.DistinctIds(sys.ids)
  {
    if InvalidationProtocol.DistinctIds(sys.ids) {
      forall events, i: nat, query, now |
        After(sys, events).Some? && After(sys, events).value.inFlight == {} && i < |After(sys, events).value.nodes|
          && Plain(query)
        ensures Answer(View(After(sys, events).value, i), query, now) ==
                Uncached(After(sys, events).value.reg.entries, query)
      {
        EveryNodeRight(sys, events, i, query, now);
      }
    } else {
      var i, j :| 0 <= i < j < |sys.ids| && sys.ids[i] == sys.ids[j];
      var events := SharedIdAnswersWrong(sys, i, j);
    }
  }
}
