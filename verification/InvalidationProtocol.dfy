/** Any number of nodes, each with its own cache, kept coherent by broadcast invalidation.

  Every node applies an invalidation to its own store at once and publishes it; the broker
  delivers each message once to every subscriber, the sender included, in any order and after
  any delay. Stamps count actions and exist for the theorems only. */
module InvalidationProtocol {
  import opened Cache
  import opened Wrappers

  datatype Tagged = Tagged(value: string, stamp: nat)

  /** `latest` remembers the last local `set` of each key. */
  datatype Node = Node(id: string, store: seq<Entry<Tagged>>, latest: map<string, Entry<Tagged>>)

  datatype Sent = Sent(wire: Wire, stamp: nat)

  datatype State = State(nodes: seq<Node>, log: seq<Sent>, inFlight: set<(nat, nat)>, clock: nat)

  datatype Action =
    | Get(node: nat, key: string, now: int)
    | Set(node: nat, key: string, value: string, now: int, ttl: int)
    | Invalidate(node: nat, msg: Message)
    | Clear(node: nat)
    | Deliver(sent: nat, node: nat)

  /** The node ids and the bound on every store. */
  datatype System = System(ids: seq<string>, maxEntries: nat)

  function Initial(sys: System): State {
    State(seq(|sys.ids|, i requires 0 <= i < |sys.ids| => Node(sys.ids[i], [], map[])), [], {}, 0)
  }

  predicate Enabled(s: State, a: Action) {
    && a.node < |s.nodes|
    && (a.Deliver? ==> a.sent < |s.log| && (a.sent, a.node) in s.inFlight)
  }

  /** The node that acts, after the action. */
  function Acted(sys: System, s: State, a: Action): Node
    requires Enabled(s, a)
  {
    var n := s.nodes[a.node];
    match a
    case Get(_, key, now) => n.(store := AfterGet(n.store, key, now))
    case Set(_, key, value, now, ttl) =>
      var e := Entry(key, Tagged(value, s.clock), now + ttl);
      n.(store := Store(n.store, sys.maxEntries, e), latest := n.latest[key := e])
    case Invalidate(_, msg) => n.(store := Drop(n.store, msg))
    case Clear(_) => n.(store := [])
    case Deliver(sent, _) =>
      var wire := s.log[sent].wire;
      if wire.nodeId == n.id then n else n.(store := Drop(n.store, wire.msg))
  }

  function Do(sys: System, s: State, a: Action): State
    requires Enabled(s, a)
  {
    var nodes := s.nodes[a.node := Acted(sys, s, a)];
    match a
    case Invalidate(i, msg) =>
      State(nodes,
            s.log + [Sent(Wire(msg, s.nodes[i].id), s.clock)],
            s.inFlight + Broadcast(|s.log|, |s.nodes|),
            s.clock + 1)
    case Deliver(sent, i) => State(nodes, s.log, s.inFlight - {(sent, i)}, s.clock + 1)
    case _ => s.(nodes := nodes, clock := s.clock + 1)
  }

  /** Message `m` on its way to each of `n` nodes. */
  function Broadcast(m: nat, n: nat): (r: set<(nat, nat)>)
    ensures forall k: nat, i: nat :: (k, i) in r <==> k == m && i < n
  {
    if n == 0 then {} else Broadcast(m, n - 1) + {(m, n - 1)}
  }

  /** The state after the actions, if each is enabled when its turn comes. */
  function After(sys: System, actions: seq<Action>): Option<State> {
    if actions == [] then Some(Initial(sys))
    else
      var n := |actions| - 1;
      var p := After(sys, actions[..n]);
      if p.Some? && Enabled(p.value, actions[n]) then Some(Do(sys, p.value, actions[n])) else None
  }

  ghost predicate DistinctIds(ids: seq<string>) {
    forall i, j :: 0 <= i < j < |ids| ==> ids[i] != ids[j]
  }

  // ---------- the inductive invariant ----------

  /** A cached entry that message `m` should have removed. */
  predicate Outdated(s: State, m: nat, e: Entry<Tagged>)
    requires m < |s.log|
  {
    s.log[m].stamp > e.value.stamp && Matches(s.log[m].wire.msg, e.key)
  }

  ghost predicate NodeInv(sys: System, s: State, i: nat)
    requires i < |s.nodes|
  {
    var n := s.nodes[i];
    && i < |sys.ids| && n.id == sys.ids[i]
    && DistinctKeys(n.store)
    && |n.store| <= sys.maxEntries
    && (forall e :: e in n.store ==> e.value.stamp < s.clock && e.key in n.latest && n.latest[e.key] == e)
  }

  /** An outdated entry still has the message on its way, and a node never keeps an entry
      that its own message outdates. */
  ghost predicate MessageInv(s: State, m: nat, i: nat)
    requires m < |s.log| && i < |s.nodes|
  {
    forall e :: e in s.nodes[i].store && Outdated(s, m, e) ==>
      (m, i) in s.inFlight && s.log[m].wire.nodeId != s.nodes[i].id
  }

  ghost predicate Inv(sys: System, s: State) {
    && |s.nodes| == |sys.ids|
    && (forall i: nat :: i < |s.nodes| ==> NodeInv(sys, s, i))
    && (forall m: nat :: m < |s.log| ==> s.log[m].stamp < s.clock)
    && (forall m: nat, i: nat :: m < |s.log| && i < |s.nodes| ==> MessageInv(s, m, i))
  }

  lemma StepKeepsNode(sys: System, s: State, a: Action)
    requires 0 < sys.maxEntries && Inv(sys, s) && Enabled(s, a)
    ensures NodeInv(sys, Do(sys, s, a), a.node)
  {
    var n := s.nodes[a.node];
    assert NodeInv(sys, s, a.node);
    match a
    case Get(_, key, now) => DropContents(n.store, DeleteKey(key));
    case Set(_, _, _, _, _) => SetKeepsNode(sys, s, a);
    case Invalidate(_, msg) => DropContents(n.store, msg);
    case Clear(_) =>
    case Deliver(sent, _) => DropContents(n.store, s.log[sent].wire.msg);
  }

  lemma SetKeepsNode(sys: System, s: State, a: Action)
    requires 0 < sys.maxEntries && Inv(sys, s) && Enabled(s, a) && a.Set?
    ensures NodeInv(sys, Do(sys, s, a), a.node)
  {
    var n := s.nodes[a.node];
    assert NodeInv(sys, s, a.node);
    var x := Entry(a.key, Tagged(a.value, s.clock), a.now + a.ttl);
    StoreContents(n.store, sys.maxEntries, x);
    forall e | e in Store(n.store, sys.maxEntries, x)
      ensures e.value.stamp < s.clock + 1 && e.key in n.latest[a.key := x] && n.latest[a.key := x][e.key] == e
    {
      assert e == x || (e in n.store && e.key != a.key);
    }
  }

  /** The acting node keeps no entry of an earlier time than it had before, and none that it dropped. */
  lemma ActedStore(sys: System, s: State, a: Action, e: Entry<Tagged>)
    requires 0 < sys.maxEntries && Inv(sys, s) && Enabled(s, a)
    requires e in Acted(sys, s, a).store
    ensures e in s.nodes[a.node].store || (a.Set? && e.value.stamp == s.clock)
    ensures a.Invalidate? ==> !Matches(a.msg, e.key)
    ensures a.Deliver? && s.log[a.sent].wire.nodeId != s.nodes[a.node].id ==> !Matches(s.log[a.sent].wire.msg, e.key)
  {
    var n := s.nodes[a.node];
    assert NodeInv(sys, s, a.node);
    match a
    case Get(_, key, now) => DropContents(n.store, DeleteKey(key));
    case Set(_, key, value, now, ttl) =>
      StoreContents(n.store, sys.maxEntries, Entry(key, Tagged(value, s.clock), now + ttl));
    case Invalidate(_, msg) => DropContents(n.store, msg);
    case Clear(_) =>
    case Deliver(sent, _) => DropContents(n.store, s.log[sent].wire.msg);
  }

  lemma StepKeepsMessages(sys: System, s: State, a: Action, m: nat, i: nat)
    requires 0 < sys.maxEntries && Inv(sys, s) && Enabled(s, a) && DistinctIds(sys.ids)
    requires m < |Do(sys, s, a).log| && i < |s.nodes|
    ensures MessageInv(Do(sys, s, a), m, i)
  {
    var s' := Do(sys, s, a);
    forall e | e in s'.nodes[i].store && Outdated(s', m, e)
      ensures (m, i) in s'.inFlight && s'.log[m].wire.nodeId != s'.nodes[i].id
    {
      assert NodeInv(sys, s, i) && NodeInv(sys, s, a.node);
      if i == a.node { ActedStore(sys, s, a, e); }
      if m < |s.log| {
        assert MessageInv(s, m, i);
        assert s'.log[m] == s.log[m];
      }
    }
  }

  lemma StepKeepsInv(sys: System, s: State, a: Action)
    requires 0 < sys.maxEntries && Inv(sys, s) && Enabled(s, a) && DistinctIds(sys.ids)
    ensures Inv(sys, Do(sys, s, a))
  {
    var s' := Do(sys, s, a);
    forall i: nat | i < |s'.nodes|
      ensures NodeInv(sys, s', i)
    {
      assert NodeInv(sys, s, i);
      if i == a.node { StepKeepsNode(sys, s, a); }
    }
    forall m: nat, i: nat | m < |s'.log| && i < |s'.nodes|
      ensures MessageInv(s', m, i)
    {
      StepKeepsMessages(sys, s, a, m, i);
    }
  }

  lemma {:induction false} ReachableInv(sys: System, actions: seq<Action>)
    requires 0 < sys.maxEntries && DistinctIds(sys.ids) && After(sys, actions).Some?
    ensures Inv(sys, After(sys, actions).value)
  {
    if actions != [] {
      var n := |actions| - 1;
      ReachableInv(sys, actions[..n]);
      StepKeepsInv(sys, After(sys, actions[..n]).value, actions[n]);
    }
  }

  // ---------- what every run guarantees ----------

  /** Some node holds an entry outdated by a message that is no longer on its way to the node. */
  ghost predicate Stale(s: State) {
    exists m: nat, i: nat, e ::
      m < |s.log| && i < |s.nodes| && e in s.nodes[i].store && Outdated(s, m, e) && (m, i) !in s.inFlight
  }

  /** No outdated entry outlives the delivery of its message: in particular none survives anywhere once nothing
      is in flight. And no store ever outgrows its bound. */
  lemma {:induction false} Coherence(sys: System, actions: seq<Action>)
    requires 0 < sys.maxEntries && DistinctIds(sys.ids) && After(sys, actions).Some?
    ensures var s := After(sys, actions).value;
      !Stale(s) && forall i :: 0 <= i < |s.nodes| ==> |s.nodes[i].store| <= sys.maxEntries
  {
    ReachableInv(sys, actions);
    var s := After(sys, actions).value;
    forall i: nat | i < |s.nodes|
      ensures |s.nodes[i].store| <= sys.maxEntries
    {
      assert NodeInv(sys, s, i);
    }
    forall m: nat, i: nat, e | m < |s.log| && i < |s.nodes| && e in s.nodes[i].store && Outdated(s, m, e)
      ensures (m, i) in s.inFlight
    {
      assert MessageInv(s, m, i);
    }
  }

  /** A hit is the latest local `set` of the key, unexpired, and every matching invalidation issued
      anywhere since then is still on its way to the node. */
  lemma {:induction false} HitIsLatest(sys: System, actions: seq<Action>, i: nat, key: string, now: int)
    requires 0 < sys.maxEntries && DistinctIds(sys.ids) && After(sys, actions).Some?
    requires i < |After(sys, actions).value.nodes|
    requires Hit(After(sys, actions).value.nodes[i].store, key, now).Some?
    ensures var s := After(sys, actions).value;
      var n := s.nodes[i];
      && key in n.latest
      && Hit(n.store, key, now).value == n.latest[key].value
      && now <= n.latest[key].expiresAt
      && forall m: nat :: m < |s.log| && Outdated(s, m, n.latest[key]) ==> (m, i) in s.inFlight
  {
    ReachableInv(sys, actions);
    var s := After(sys, actions).value;
    assert NodeInv(sys, s, i);
    var e := Lookup(s.nodes[i].store, key).value;
    forall m: nat | m < |s.log| && Outdated(s, m, e)
      ensures (m, i) in s.inFlight
    {
      assert MessageInv(s, m, i);
    }
  }

  // ---------- distinct node ids are necessary ----------

  /** With a shared id, echo suppression discards the other node's invalidation. */
  lemma {:induction false} SharedIdGoesStale(sys: System, i: nat, j: nat)
    requires 0 < sys.maxEntries && i < |sys.ids| && j < |sys.ids| && i != j && sys.ids[i] == sys.ids[j]
    ensures exists actions :: After(sys, actions).Some? && Stale(After(sys, actions).value)
  {
    var a0, a1, a2 := Set(j, "k", "v", 0, 60000), Invalidate(i, DeleteKey("k")), Deliver(0, j);
    var e := Entry("k", Tagged("v", 0), 60000);
    var s1 := Do(sys, Initial(sys), a0);
    assert s1.nodes[j].store == [e];
    var s2 := Do(sys, s1, a1);
    assert s2.nodes[j] == s1.nodes[j] && s2.log == [Sent(Wire(DeleteKey("k"), sys.ids[i]), 1)];
    var s3 := Do(sys, s2, a2);
    assert s3.nodes[j] == s1.nodes[j] && s3.log == s2.log;
    assert Outdated(s3, 0, e) && (0, j) !in s3.inFlight && e in s3.nodes[j].store;
    ThreeSteps(sys, a0, a1, a2);
  }

  lemma {:induction false} ThreeSteps(sys: System, a0: Action, a1: Action, a2: Action)
    requires Enabled(Initial(sys), a0)
    requires Enabled(Do(sys, Initial(sys), a0), a1)
    requires Enabled(Do(sys, Do(sys, Initial(sys), a0), a1), a2)
    ensures After(sys, [a0, a1, a2]) == Some(Do(sys, Do(sys, Do(sys, Initial(sys), a0), a1), a2))
  {
    RunExtends(sys, [], a0);
    assert [] + [a0] == [a0];
    RunExtends(sys, [a0], a1);
    assert [a0] + [a1] == [a0, a1];
    RunExtends(sys, [a0, a1], a2);
    assert [a0, a1] + [a2] == [a0, a1, a2];
  }

  lemma {:induction false} RunExtends(sys: System, actions: seq<Action>, a: Action)
    requires After(sys, actions).Some? && Enabled(After(sys, actions).value, a)
    ensures After(sys, actions + [a]) == Some(Do(sys, After(sys, actions).value, a))
  {
    assert (actions + [a])[..|actions|] == actions;
  }

  /** Every run is coherent exactly when the node ids are distinct. */
  lemma {:induction false} CoherentIffDistinctIds(sys: System)
    requires 0 < sys.maxEntries
    ensures DistinctIds(sys.ids) <==>
            forall actions :: After(sys, actions).Some? ==> !Stale(After(sys, actions).value)
  {
    if DistinctIds(sys.ids) {
      forall actions | After(sys, actions).Some?
        ensures !Stale(After(sys, actions).value)
      {
        Coherence(sys, actions);
      }
    } else {
      var i, j :| 0 <= i < j < |sys.ids| && sys.ids[i] == sys.ids[j];
      SharedIdGoesStale(sys, i, j);
    }
  }
}
