/** Eviction is first in, first out: the insertion-ordered store agrees, in every run, with a map whose slots remember when
  their key came in, and that evicts the slot that came in first. */
module CacheOrder {
  import opened Cache
  import opened Wrappers

  datatype Op<V> = SetOp(entry: Entry<V>) | GetOp(key: string, now: int) | DropOp(msg: Message) | ClearOp

  /** `since` is the number of operations before the `set` that brought the key in. */
  datatype Slot<V> = Slot(value: V, expiresAt: int, since: nat)

  type Slots<V> = map<string, Slot<V>>

  // ---------- the store ----------

  function Step<V>(s: seq<Entry<V>>, max: nat, op: Op<V>): seq<Entry<V>> {
    match op
    case SetOp(e) => Store(s, max, e)
    case GetOp(key, now) => AfterGet(s, key, now)
    case DropOp(msg) => Drop(s, msg)
    case ClearOp => []
  }

  function Run<V>(max: nat, ops: seq<Op<V>>): seq<Entry<V>> {
    if ops == [] then [] else Step(Run(max, ops[..|ops| - 1]), max, ops[|ops| - 1])
  }

  // ---------- the map with arrival times ----------

  /** The slots but the one that came in first. */
  ghost predicate FirstOut<V(!new)>(m: Slots<V>, n: Slots<V>) {
    exists k :: k in m && n == m - {k} && forall l :: l in m ==> m[k].since <= m[l].since
  }

  /** A `set` into m: the bound is reached exactly when the first slot goes; a key that is in keeps its time. */
  ghost predicate SetInto<V(!new)>(m: Slots<V>, max: nat, e: Entry<V>, clock: nat, r: Slots<V>) {
    exists n: Slots<V> ::
      && (if |m| >= max then FirstOut(m, n) else n == m)
      && r == n[e.key := Slot(e.value, e.expiresAt, if e.key in n then n[e.key].since else clock)]
  }

  function Without<V>(m: Slots<V>, msg: Message): Slots<V> {
    map k | k in m && !Matches(msg, k) :: m[k]
  }

  function GetFrom<V>(m: Slots<V>, key: string, now: int): Option<V> {
    if key in m && now <= m[key].expiresAt then Some(m[key].value) else None
  }

  /** A slot found expired goes. */
  function AfterGetFrom<V>(m: Slots<V>, key: string, now: int): Slots<V> {
    if key in m && m[key].expiresAt < now then m - {key} else m
  }

  ghost predicate SlotStep<V(!new)>(m: Slots<V>, max: nat, op: Op<V>, clock: nat, r: Slots<V>) {
    match op
    case SetOp(e) => SetInto(m, max, e, clock, r)
    case GetOp(key, now) => r == AfterGetFrom(m, key, now)
    case DropOp(msg) => r == Without(m, msg)
    case ClearOp => r == map[]
  }

  /** The operations can bring the slots about. */
  ghost predicate SlotRun<V(!new)>(max: nat, ops: seq<Op<V>>, m: Slots<V>) {
    if ops == [] then m == map[]
    else
      var n := |ops| - 1;
      exists p :: SlotRun(max, ops[..n], p) && SlotStep(p, max, ops[n], n, m)
  }

  // ---------- they agree ----------

  /** The entry is in its slot. */
  ghost predicate InSlot<V(!new)>(e: Entry<V>, m: Slots<V>) {
    e.key in m && m[e.key].value == e.value && m[e.key].expiresAt == e.expiresAt
  }

  ghost predicate HasKey<V(!new)>(s: seq<Entry<V>>, k: string) {
    exists i :: 0 <= i < |s| && s[i].key == k
  }

  function Since<V>(m: Slots<V>, k: string): int {
    if k in m then m[k].since else -1
  }

  ghost predicate Sorted<V(!new)>(s: seq<Entry<V>>, m: Slots<V>) {
    forall i, j :: 0 <= i < j < |s| ==> Since(m, s[i].key) < Since(m, s[j].key)
  }

  /** The store lists the slots in the order in which their keys came in. */
  ghost predicate Lists<V(!new)>(s: seq<Entry<V>>, m: Slots<V>) {
    (forall i :: 0 <= i < |s| ==> InSlot(s[i], m)) && (forall k :: k in m ==> HasKey(s, k)) && Sorted(s, m)
  }

  ghost predicate Aged<V(!new)>(m: Slots<V>, clock: nat) {
    forall k :: k in m ==> m[k].since < clock
  }

  lemma ListsDistinct<V(!new)>(s: seq<Entry<V>>, m: Slots<V>)
    requires Lists(s, m)
    ensures DistinctKeys(s)
  {
    forall i, j | 0 <= i < j < |s|
      ensures s[i].key != s[j].key
    {
      assert Since(m, s[i].key) < Since(m, s[j].key);
    }
  }

  /** Without its first entry, the store lists the slots but the one that came in first. */
  lemma TailLists<V(!new)>(s: seq<Entry<V>>, m: Slots<V>)
    requires Lists(s, m) && s != []
    ensures s[0].key in m && Lists(s[1..], m - {s[0].key})
    ensures forall l :: l in m && l != s[0].key ==> m[s[0].key].since < m[l].since
  {
    assert InSlot(s[0], m);
    TailInSlots(s, m);
    TailKeys(s, m);
    TailSorted(s, m);
  }

  lemma TailInSlots<V(!new)>(s: seq<Entry<V>>, m: Slots<V>)
    requires Lists(s, m) && s != []
    ensures forall i :: 0 <= i < |s[1..]| ==> InSlot(s[1..][i], m - {s[0].key})
  {
    ListsDistinct(s, m);
    forall i | 0 <= i < |s[1..]|
      ensures InSlot(s[1..][i], m - {s[0].key})
    {
      assert s[1..][i] == s[i + 1] && InSlot(s[i + 1], m);
    }
  }

  lemma TailKeys<V(!new)>(s: seq<Entry<V>>, m: Slots<V>)
    requires Lists(s, m) && s != [] && InSlot(s[0], m)
    ensures forall l :: l in m - {s[0].key} ==> HasKey(s[1..], l)
    ensures forall l :: l in m && l != s[0].key ==> m[s[0].key].since < m[l].since
  {
    forall l | l in m && l != s[0].key
      ensures HasKey(s[1..], l) && m[s[0].key].since < m[l].since
    {
      assert HasKey(s, l);
      var i :| 0 <= i < |s| && s[i].key == l;
      assert s[1..][i - 1].key == l;
      assert Since(m, s[0].key) < Since(m, s[i].key);
    }
  }

  lemma TailSorted<V(!new)>(s: seq<Entry<V>>, m: Slots<V>)
    requires Lists(s, m) && s != []
    ensures Sorted(s[1..], m - {s[0].key})
  {
    ListsDistinct(s, m);
    var t, n := s[1..], m - {s[0].key};
    forall i, j | 0 <= i < j < |t|
      ensures Since(n, t[i].key) < Since(n, t[j].key)
    {
      assert t[i] == s[i + 1] && t[j] == s[j + 1];
      assert Since(m, s[i + 1].key) < Since(m, s[j + 1].key);
    }
  }

  lemma {:induction false} ListsCount<V(!new)>(s: seq<Entry<V>>, m: Slots<V>)
    requires Lists(s, m)
    ensures |m| == |s|
  {
    if s == [] {
      assert forall k :: k in m ==> HasKey(s, k);
      assert m == map[];
    } else {
      TailLists(s, m);
      ListsCount(s[1..], m - {s[0].key});
      RemoveCount(m, s[0].key);
    }
  }

  lemma RemoveCount<V(!new)>(m: Slots<V>, k: string)
    requires k in m
    ensures |m - {k}| == |m| - 1
  {
    assert (m - {k}).Keys == m.Keys - {k};
    assert |m.Keys| == |m| && |(m - {k}).Keys| == |m - {k}|;
  }

  /** What is evicted is the first entry of the store. */
  lemma FirstOutIsHead<V(!new)>(s: seq<Entry<V>>, m: Slots<V>, n: Slots<V>)
    requires Lists(s, m) && s != []
    ensures FirstOut(m, n) <==> n == m - {s[0].key}
  {
    TailLists(s, m);
    if FirstOut(m, n) {
      var k :| k in m && n == m - {k} && forall l :: l in m ==> m[k].since <= m[l].since;
      assert m[k].since <= m[s[0].key].since;
    }
  }

  lemma TailHasKey<V(!new)>(s: seq<Entry<V>>, k: string)
    requires s != [] && HasKey(s[1..], k)
    ensures HasKey(s, k)
  {
    var i :| 0 <= i < |s[1..]| && s[1..][i].key == k;
    assert s[i + 1].key == k;
  }

  /** A key that is not in goes to the end. */
  lemma {:induction false} PutAtEnd<V(!new)>(s: seq<Entry<V>>, e: Entry<V>)
    requires !HasKey(s, e.key)
    ensures Put(s, e) == s + [e]
  {
    if s != [] {
      assert s[0].key != e.key;
      assert HasKey(s[1..], e.key) ==> HasKey(s, e.key) by { if HasKey(s[1..], e.key) { TailHasKey(s, e.key); } }
      PutAtEnd(s[1..], e);
      assert s == [s[0]] + s[1..];
    }
  }

  /** A key that is in keeps its place. */
  lemma {:induction false} PutInPlace<V(!new)>(s: seq<Entry<V>>, e: Entry<V>, i: nat)
    requires DistinctKeys(s) && i < |s| && s[i].key == e.key
    ensures Put(s, e) == s[i := e]
  {
    if i > 0 {
      assert s[0].key != s[i].key;
      PutInPlace(s[1..], e, i - 1);
    }
  }

  function Stamped<V>(m: Slots<V>, e: Entry<V>, clock: nat): Slots<V> {
    m[e.key := Slot(e.value, e.expiresAt, if e.key in m then m[e.key].since else clock)]
  }

  lemma {:induction false} PutLists<V(!new)>(s: seq<Entry<V>>, m: Slots<V>, e: Entry<V>, clock: nat)
    requires Lists(s, m) && Aged(m, clock)
    ensures Lists(Put(s, e), Stamped(m, e, clock))
  {
    ListsDistinct(s, m);
    if HasKey(s, e.key) {
      var i :| 0 <= i < |s| && s[i].key == e.key;
      assert InSlot(s[i], m);
      PutInPlace(s, e, i);
      ReplacedLists(s, m, e, i, clock);
    } else {
      PutAtEnd(s, e);
      AddedLists(s, m, e, clock);
    }
  }

  lemma ReplacedLists<V(!new)>(s: seq<Entry<V>>, m: Slots<V>, e: Entry<V>, i: nat, clock: nat)
    requires Lists(s, m) && i < |s| && s[i].key == e.key
    ensures Lists(s[i := e], Stamped(m, e, clock))
  {
    var t, n := s[i := e], Stamped(m, e, clock);
    assert InSlot(s[i], m);
    forall j | 0 <= j < |t|
      ensures InSlot(t[j], n) && t[j].key == s[j].key
    {
      assert InSlot(s[j], m);
      ListsDistinct(s, m);
    }
    forall k | k in n
      ensures HasKey(t, k)
    {
      assert HasKey(s, k);
      var j :| 0 <= j < |s| && s[j].key == k;
      assert t[j].key == k;
    }
    forall j, k | 0 <= j < k < |t|
      ensures Since(n, t[j].key) < Since(n, t[k].key)
    {
      assert Since(m, s[j].key) < Since(m, s[k].key);
    }
  }

  lemma AddedLists<V(!new)>(s: seq<Entry<V>>, m: Slots<V>, e: Entry<V>, clock: nat)
    requires Lists(s, m) && Aged(m, clock) && !HasKey(s, e.key)
    ensures Lists(s + [e], Stamped(m, e, clock))
  {
    var t, n := s + [e], Stamped(m, e, clock);
    assert e.key !in m;
    forall j | 0 <= j < |t|
      ensures InSlot(t[j], n)
    {
      if j < |s| { assert InSlot(s[j], m) && t[j] == s[j]; }
    }
    forall k | k in n
      ensures HasKey(t, k)
    {
      if k == e.key {
        assert t[|s|].key == k;
      } else {
        assert HasKey(s, k);
        var j :| 0 <= j < |s| && s[j].key == k;
        assert t[j].key == k;
      }
    }
    forall j, k | 0 <= j < k < |t|
      ensures Since(n, t[j].key) < Since(n, t[k].key)
    {
      assert InSlot(s[j], m);
      if k < |s| { assert Since(m, s[j].key) < Since(m, s[k].key) && InSlot(s[k], m); }
    }
  }

  lemma {:induction false} DropSorted<V(!new)>(s: seq<Entry<V>>, m: Slots<V>, msg: Message)
    requires Sorted(s, m)
    ensures Sorted(Drop(s, msg), m) && forall e :: e in Drop(s, msg) ==> e in s
  {
    if s != [] {
      SortedTail(s, m);
      DropSorted(s[1..], m, msg);
      SortedCons(s[0], Drop(s[1..], msg), m);
      assert s == [s[0]] + s[1..];
    }
  }

  lemma SortedTail<V(!new)>(s: seq<Entry<V>>, m: Slots<V>)
    requires s != [] && Sorted(s, m)
    ensures Sorted(s[1..], m) && forall e :: e in s[1..] ==> Since(m, s[0].key) < Since(m, e.key)
  {
    var t := s[1..];
    forall i, j | 0 <= i < j < |t|
      ensures Since(m, t[i].key) < Since(m, t[j].key)
    {
      assert t[i] == s[i + 1] && t[j] == s[j + 1];
      assert Since(m, s[i + 1].key) < Since(m, s[j + 1].key);
    }
    forall e | e in t
      ensures Since(m, s[0].key) < Since(m, e.key)
    {
      var i :| 0 <= i < |t| && t[i] == e;
      assert t[i] == s[i + 1];
      assert Since(m, s[0].key) < Since(m, s[i + 1].key);
    }
  }

  lemma SortedCons<V(!new)>(e: Entry<V>, s: seq<Entry<V>>, m: Slots<V>)
    requires Sorted(s, m) && forall x :: x in s ==> Since(m, e.key) < Since(m, x.key)
    ensures Sorted([e] + s, m)
  {
    var t := [e] + s;
    forall i, j | 0 <= i < j < |t|
      ensures Since(m, t[i].key) < Since(m, t[j].key)
    {
      assert t[j] == s[j - 1] && s[j - 1] in s;
      if i > 0 { assert t[i] == s[i - 1]; }
    }
  }

  lemma {:induction false} DropLists<V(!new)>(s: seq<Entry<V>>, m: Slots<V>, msg: Message)
    requires Lists(s, m)
    ensures Lists(Drop(s, msg), Without(m, msg))
  {
    var t, n := Drop(s, msg), Without(m, msg);
    ListsDistinct(s, m);
    DropContents(s, msg);
    DropSorted(s, m, msg);
    forall i | 0 <= i < |t|
      ensures InSlot(t[i], n)
    {
      assert t[i] in s;
      var j :| 0 <= j < |s| && s[j] == t[i];
      assert InSlot(s[j], m);
    }
    forall k | k in n
      ensures HasKey(t, k)
    {
      assert HasKey(s, k);
      var j :| 0 <= j < |s| && s[j].key == k;
      assert s[j] in t;
    }
    forall i, j | 0 <= i < j < |t|
      ensures Since(n, t[i].key) < Since(n, t[j].key)
    {
      assert InSlot(t[i], n) && InSlot(t[j], n);
      assert Since(m, t[i].key) < Since(m, t[j].key);
    }
  }

  lemma {:induction false} LookupSlot<V(!new)>(s: seq<Entry<V>>, m: Slots<V>, k: string)
    requires Lists(s, m)
    ensures Lookup(s, k).Some? <==> k in m
    ensures k in m ==> InSlot(Lookup(s, k).value, m)
  {
    var r := Lookup(s, k);
    if r.Some? {
      var i :| 0 <= i < |s| && s[i] == r.value;
      assert InSlot(s[i], m);
    }
    KeysListed(s, m, k);
    assert forall i :: 0 <= i < |s| ==> s[i] in s;
  }

  /** The bound is reached by the store exactly when it is by the slots, and a `set` evicts the same key. */
  lemma SetLists<V(!new)>(s: seq<Entry<V>>, m: Slots<V>, max: nat, e: Entry<V>, clock: nat)
    requires 0 < max && Lists(s, m) && Aged(m, clock)
    ensures var n := if |s| >= max then m - {s[0].key} else m;
      && Lists(Store(s, max, e), Stamped(n, e, clock))
      && forall r :: SetInto(m, max, e, clock, r) <==> r == Stamped(n, e, clock)
  {
    ListsCount(s, m);
    if |s| >= max {
      TailLists(s, m);
      PutLists(s[1..], m - {s[0].key}, e, clock);
      forall n
        ensures FirstOut(m, n) <==> n == m - {s[0].key}
      {
        FirstOutIsHead(s, m, n);
      }
    } else {
      PutLists(s, m, e, clock);
    }
  }

  lemma GetLists<V(!new)>(s: seq<Entry<V>>, m: Slots<V>, key: string, now: int)
    requires Lists(s, m)
    ensures Lists(AfterGet(s, key, now), AfterGetFrom(m, key, now))
  {
    LookupSlot(s, m, key);
    DropLists(s, m, DeleteKey(key));
    WithoutKey(m, key);
  }

  lemma WithoutKey<V(!new)>(m: Slots<V>, k: string)
    ensures Without(m, DeleteKey(k)) == m - {k}
  {
  }

  /** Slots that a step can lead to, for the step of the store. */
  lemma StepLists<V(!new)>(s: seq<Entry<V>>, m: Slots<V>, max: nat, op: Op<V>, clock: nat) returns (r: Slots<V>)
    requires 0 < max && Lists(s, m) && Aged(m, clock)
    ensures Lists(Step(s, max, op), r) && Aged(r, clock + 1)
    ensures forall q :: SlotStep(m, max, op, clock, q) <==> q == r
  {
    match op
    case SetOp(e) =>
      SetLists(s, m, max, e, clock);
      r := Stamped(if |s| >= max then m - {s[0].key} else m, e, clock);
    case GetOp(key, now) =>
      GetLists(s, m, key, now);
      r := AfterGetFrom(m, key, now);
    case DropOp(msg) =>
      DropLists(s, m, msg);
      r := Without(m, msg);
    case ClearOp =>
      r := map[];
  }

  /** The slots of a run are unique, and the store lists them. */
  lemma {:induction false} RunLists<V(!new)>(max: nat, ops: seq<Op<V>>) returns (m: Slots<V>)
    requires 0 < max
    ensures Lists(Run(max, ops), m) && Aged(m, |ops|)
    ensures forall q :: SlotRun(max, ops, q) <==> q == m
  {
    if ops == [] {
      m := map[];
    } else {
      var n := |ops| - 1;
      var p := RunLists(max, ops[..n]);
      m := StepLists(Run(max, ops[..n]), p, max, ops[n], n);
      assert SlotRun(max, ops[..n], p);
    }
  }

  /** In every run the store lists its keys in the order in which they came in, and answers like the slots. */
  lemma {:induction false} RunInOrder<V(!new)>(max: nat, ops: seq<Op<V>>, m: Slots<V>, key: string, now: int)
    requires 0 < max && SlotRun(max, ops, m)
    ensures Lists(Run(max, ops), m) && Hit(Run(max, ops), key, now) == GetFrom(m, key, now)
  {
    var q := RunLists(max, ops);
    LookupSlot(Run(max, ops), m, key);
  }

  /** So a `set` that evicts removes exactly the key that came in first, unless it is the key that is set. */
  lemma {:induction false} EvictsFirst<V(!new)>(max: nat, ops: seq<Op<V>>, m: Slots<V>, e: Entry<V>, k: string)
    requires 0 < max && SlotRun(max, ops, m) && k in m && k != e.key
    ensures !HasKey(Run(max, ops + [SetOp(e)]), k) <==>
            |m| >= max && forall l :: l in m ==> m[k].since <= m[l].since
  {
    var s := Run(max, ops);
    var q := RunLists(max, ops);
    assert Run(max, ops + [SetOp(e)]) == Store(s, max, e) by { assert (ops + [SetOp(e)])[..|ops|] == ops; }
    SetLists(s, m, max, e, |ops|);
    ListsCount(s, m);
    var n := if |s| >= max then m - {s[0].key} else m;
    KeysListed(Store(s, max, e), Stamped(n, e, |ops|), k);
    if |s| >= max { TailLists(s, m); }
  }

  lemma KeysListed<V(!new)>(s: seq<Entry<V>>, m: Slots<V>, k: string)
    requires Lists(s, m)
    ensures HasKey(s, k) <==> k in m
  {
    if HasKey(s, k) {
      var i :| 0 <= i < |s| && s[i].key == k;
      assert InSlot(s[i], m);
    }
  }
}
