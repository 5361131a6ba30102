/** The per-node TTL cache over an insertion-ordered map, and its invalidation bus. */
module Cache {
  import opened AsciiText
  import opened Wrappers

  datatype Entry<V> = Entry(key: string, value: V, expiresAt: int)

  datatype Message = DeleteKey(key: string) | DeletePrefix(prefix: string)

  /** A broadcast message, tagged with the node that sent it. */
  datatype Wire = Wire(msg: Message, nodeId: string)

  predicate Matches(msg: Message, key: string) {
    match msg
    case DeleteKey(k) => key == k
    case DeletePrefix(p) => StartsWith(key, p)
  }

  // ---------- the store as a sequence of entries, oldest first ----------

  ghost predicate DistinctKeys<V>(s: seq<Entry<V>>) {
    forall i, j :: 0 <= i < j < |s| ==> s[i].key != s[j].key
  }

  function Lookup<V>(s: seq<Entry<V>>, key: string): (r: Option<Entry<V>>)
    ensures r.Some? ==> r.value in s && r.value.key == key
    ensures r.None? ==> forall e :: e in s ==> e.key != key
  {
    if s == [] then None else if s[0].key == key then Some(s[0]) else Lookup(s[1..], key)
  }

  /** The entries that `msg` does not match, in order. */
  function Drop<V>(s: seq<Entry<V>>, msg: Message): (r: seq<Entry<V>>)
    ensures |r| <= |s|
  {
    if s == [] then []
    else (if Matches(msg, s[0].key) then [] else [s[0]]) + Drop(s[1..], msg)
  }

  /** `Map.set`: an existing key keeps its place, a new key goes to the end. */
  function Put<V>(s: seq<Entry<V>>, e: Entry<V>): (r: seq<Entry<V>>)
    ensures |r| == if Lookup(s, e.key).Some? then |s| else |s| + 1
  {
    if s == [] then [e]
    else if s[0].key == e.key then [e] + s[1..]
    else [s[0]] + Put(s[1..], e)
  }

  /** `CacheService.set`: evict the oldest entry of a full store, then store. */
  function Store<V>(s: seq<Entry<V>>, max: nat, e: Entry<V>): seq<Entry<V>> {
    Put(if |s| >= max && s != [] then s[1..] else s, e)
  }

  /** The value `CacheService.get` gives back at time `now`. */
  function Hit<V>(s: seq<Entry<V>>, key: string, now: int): Option<V> {
    var r := Lookup(s, key);
    if r.None? || r.value.expiresAt < now then None else Some(r.value.value)
  }

  /** What `CacheService.get` leaves behind: an expired entry is removed when it is met. */
  function AfterGet<V>(s: seq<Entry<V>>, key: string, now: int): seq<Entry<V>> {
    var r := Lookup(s, key);
    if r.Some? && r.value.expiresAt < now then Drop(s, DeleteKey(key)) else s
  }

  lemma ConsDistinct<V(!new)>(e: Entry<V>, s: seq<Entry<V>>)
    requires DistinctKeys(s) && forall x :: x in s ==> x.key != e.key
    ensures DistinctKeys([e] + s)
  {
    var t := [e] + s;
    forall i, j | 0 <= i < j < |t|
      ensures t[i].key != t[j].key
    {
      assert t[j] == s[j - 1];
      if i > 0 { assert t[i] == s[i - 1]; }
    }
  }

  lemma TailDistinct<V(!new)>(s: seq<Entry<V>>)
    requires DistinctKeys(s) && s != []
    ensures DistinctKeys(s[1..]) && (forall x :: x in s[1..] ==> x.key != s[0].key)
    ensures forall x :: x in s <==> x == s[0] || x in s[1..]
  {
    assert s == [s[0]] + s[1..];
  }

  lemma {:induction false} DropContents<V(!new)>(s: seq<Entry<V>>, msg: Message)
    requires DistinctKeys(s)
    ensures forall e :: e in Drop(s, msg) <==> e in s && !Matches(msg, e.key)
    ensures DistinctKeys(Drop(s, msg))
  {
    if s != [] {
      TailDistinct(s);
      DropContents(s[1..], msg);
      ConsDistinct(s[0], Drop(s[1..], msg));
    }
  }

  lemma {:induction false} DropNext<V(!new)>(s: seq<Entry<V>>, j: nat, msg: Message)
    requires j < |s|
    ensures Drop(s[..j + 1], msg) == Drop(s[..j], msg) + (if Matches(msg, s[j].key) then [] else [s[j]])
  {
    if j > 0 {
      DropNext(s[1..], j - 1, msg);
      assert s[..j + 1][1..] == s[1..][..j] && s[..j][1..] == s[1..][..j - 1];
      assert Drop(s[..j + 1], msg) == (if Matches(msg, s[0].key) then [] else [s[0]]) + Drop(s[1..][..j], msg);
    } else {
      assert s[..1] == [s[0]];
    }
  }

  lemma {:induction false} PutContents<V(!new)>(s: seq<Entry<V>>, e: Entry<V>)
    requires DistinctKeys(s)
    ensures forall x :: x in Put(s, e) <==> x == e || (x in s && x.key != e.key)
    ensures DistinctKeys(Put(s, e))
  {
    if s != [] {
      TailDistinct(s);
      PutContents(s[1..], e);
      ConsDistinct(if s[0].key == e.key then e else s[0], if s[0].key == e.key then s[1..] else Put(s[1..], e));
    }
  }

  /** A store never outgrows its bound, and apart from an evicted entry it changes at one key only. */
  lemma StoreContents<V(!new)>(s: seq<Entry<V>>, max: nat, e: Entry<V>)
    requires DistinctKeys(s) && 0 < max && |s| <= max
    ensures DistinctKeys(Store(s, max, e)) && |Store(s, max, e)| <= max
    ensures e in Store(s, max, e)
    ensures forall x :: x in Store(s, max, e) ==> x == e || (x in s && x.key != e.key)
    ensures forall x :: x in s && x.key != e.key && (|s| < max || x != s[0]) ==> x in Store(s, max, e)
  {
    if |s| >= max {
      TailDistinct(s);
      PutContents(s[1..], e);
    } else {
      PutContents(s, e);
    }
  }

  // ---------- the services ----------

  class CacheInvalidationBus {
    const nodeId: string
    var connected: bool
    var sent: seq<Wire>

    constructor (nodeId: string)
      ensures this.nodeId == nodeId && !connected && sent == []
    {
      this.nodeId := nodeId;
      connected := false;
      sent := [];
    }

    method Start(hasRedis: bool)
      modifies this`connected
      ensures connected == (hasRedis || old(connected))
    {
      if hasRedis { connected := true; }
    }

    method Stop()
      modifies this`connected
      ensures !connected
    {
      connected := false;
    }

    /** Broadcast an invalidation; nothing happens without a publisher. */
    method Publish(msg: Message)
      modifies this`sent
      ensures sent == if connected then old(sent) + [Wire(msg, nodeId)] else old(sent)
    {
      if !connected { return; }
      sent := sent + [Wire(msg, nodeId)];
    }
  }

  class CacheService<V(!new)> {
    const maxEntries: nat
    const bus: CacheInvalidationBus
    var store: seq<Entry<V>>

    ghost predicate Valid()
      reads this
    {
      DistinctKeys(store) && |store| <= maxEntries && 0 < maxEntries
    }

    constructor (maxEntries: nat, bus: CacheInvalidationBus)
      requires 0 < maxEntries
      ensures this.maxEntries == maxEntries && this.bus == bus && store == [] && Valid()
    {
      this.maxEntries := maxEntries;
      this.bus := bus;
      store := [];
    }

    method Get(key: string, now: int) returns (r: Option<V>)
      requires Valid()
      modifies this`store
      ensures Valid()
      ensures r == Hit(old(store), key, now) && store == AfterGet(old(store), key, now)
    {
      var entry := Lookup(store, key);
      if entry.None? { return None; }
      if entry.value.expiresAt < now {
        DropContents(store, DeleteKey(key));
        store := Drop(store, DeleteKey(key));
        return None;
      }
      return Some(entry.value.value);
    }

    method Set(key: string, value: V, now: int, ttl: int)
      requires Valid()
      modifies this`store
      ensures Valid()
      ensures store == Store(old(store), maxEntries, Entry(key, value, now + ttl))
    {
      StoreContents(store, maxEntries, Entry(key, value, now + ttl));
      if |store| >= maxEntries {
        store := store[1..];
      }
      store := Put(store, Entry(key, value, now + ttl));
    }

    method Delete(key: string)
      requires Valid()
      modifies this`store, bus`sent
      ensures Valid()
      ensures store == Drop(old(store), DeleteKey(key))
      ensures bus.sent == if bus.connected then old(bus.sent) + [Wire(DeleteKey(key), bus.nodeId)] else old(bus.sent)
    {
      DropContents(store, DeleteKey(key));
      store := Drop(store, DeleteKey(key));
      bus.Publish(DeleteKey(key));
    }

    method DeletePrefix(prefix: string) returns (removed: nat)
      requires Valid()
      modifies this`store, bus`sent
      ensures Valid()
      ensures store == Drop(old(store), Message.DeletePrefix(prefix))
      ensures removed == |old(store)| - |store|
      ensures bus.sent ==
        if bus.connected then old(bus.sent) + [Wire(Message.DeletePrefix(prefix), bus.nodeId)] else old(bus.sent)
    {
      removed := ApplyDeletePrefix(prefix);
      bus.Publish(Message.DeletePrefix(prefix));
    }

    /** The local sweep: deletes while iterating over the live map. */
    method ApplyDeletePrefix(prefix: string) returns (removed: nat)
      requires Valid()
      modifies this`store
      ensures Valid()
      ensures store == Drop(old(store), Message.DeletePrefix(prefix))
      ensures removed == |old(store)| - |store|
    {
      ghost var msg := Message.DeletePrefix(prefix);
      ghost var all := store;
      ghost var j := 0;
      DropContents(store, msg);
      removed := 0;
      var i := 0;
      while i < |store|
        invariant i <= |store| && j <= |all|
        invariant store[i..] == all[j..] && store[..i] == Drop(all[..j], msg)
        invariant removed == |all| - |store|
        decreases |store| - i
      {
        DropNext(all, j, msg);
        assert store[i] == all[j] && all[j + 1..] == store[i..][1..];
        if StartsWith(store[i].key, prefix) {
          store := store[..i] + store[i + 1..];
          removed := removed + 1;
        } else {
          assert store[..i + 1] == store[..i] + [store[i]];
          i := i + 1;
        }
        j := j + 1;
      }
      assert all[..j] == all && store[..i] == store;
    }

    method Clear()
      requires Valid()
      modifies this`store
      ensures Valid() && store == []
    {
      store := [];
    }

    /** The subscriber: a message from the node itself is an echo and is ignored. */
    method OnMessage(wire: Wire)
      requires Valid()
      modifies this`store
      ensures Valid()
      ensures store == if wire.nodeId == bus.nodeId then old(store) else Drop(old(store), wire.msg)
    {
      if wire.nodeId == bus.nodeId { return; }
      match wire.msg
      case DeleteKey(key) =>
        DropContents(store, wire.msg);
        store := Drop(store, wire.msg);
      case DeletePrefix(prefix) =>
        var _ := ApplyDeletePrefix(prefix);
    }
  }
}
