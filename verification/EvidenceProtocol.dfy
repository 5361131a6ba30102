/** Concurrent appends: every append is a transaction that waits for its tenant's advisory
  lock, reads the newest row, inserts and commits, interleaved with all other appends.
  The lock is keyed by a hash of the tenant, so tenants may share a lock. */
module EvidenceProtocol {
  import opened CanonicalJson
  import opened EvidenceHash
  import opened EvidenceVault
  import opened Wrappers

  type Id = int

  datatype Phase = Waiting | Locked | HasRead(last: Option<Row>) | Inserted(row: Row) | Finished

  datatype Txn = Txn(input: Input, phase: Phase)

  /** `given` remembers, for the theorems only, the metadata each committed row was hashed with. */
  datatype State = State(
    committed: seq<Row>,
    holders: map<int, Id>,
    txns: map<Id, Txn>,
    given: map<(Option<Text>, nat), Json>)

  datatype Action =
    | Begin(id: Id, input: Input)
    | Acquire(id: Id)
    | ReadLast(id: Id)
    | InsertRow(id: Id)
    | Commit(id: Id)
    | Abort(id: Id)

  /** The digest and the lock key of a tenant, `hashtext(tenantKey)`. */
  datatype System = System(digest: Event -> Text, lockKey: Option<Text> -> int)

  const INITIAL: State := State([], map[], map[], map[])

  function Tenant(t: Txn): Option<Text> {
    t.input.content.tenantId
  }

  predicate Critical(t: Txn) {
    t.phase.Locked? || t.phase.HasRead? || t.phase.Inserted?
  }

  ghost predicate Enabled(sys: System, s: State, a: Action) {
    match a
    case Begin(id, input) => id !in s.txns && ValidInput(input)
    case Acquire(id) => id in s.txns && s.txns[id].phase.Waiting? && sys.lockKey(Tenant(s.txns[id])) !in s.holders
    case ReadLast(id) => id in s.txns && s.txns[id].phase.Locked?
    case InsertRow(id) => id in s.txns && s.txns[id].phase.HasRead?
    case Commit(id) => id in s.txns && s.txns[id].phase.Inserted?
    case Abort(id) => id in s.txns && !s.txns[id].phase.Finished?
  }

  ghost function Do(sys: System, s: State, a: Action): State
    requires Enabled(sys, s, a)
  {
    match a
    case Begin(id, input) => s.(txns := s.txns[id := Txn(input, Waiting)])
    case Acquire(id) =>
      s.(holders := s.holders[sys.lockKey(Tenant(s.txns[id])) := id], txns := s.txns[id := s.txns[id].(phase := Locked)])
    case ReadLast(id) =>
      var last := LastRow(s.committed, Tenant(s.txns[id]));
      s.(txns := s.txns[id := s.txns[id].(phase := HasRead(last))])
    case InsertRow(id) =>
      var row := NewRow(sys.digest, s.txns[id].input, s.txns[id].phase.last);
      s.(txns := s.txns[id := s.txns[id].(phase := Inserted(row))])
    case Commit(id) =>
      var row := s.txns[id].phase.row;
      Release(sys, s.(committed := s.committed + [row],
                      given := s.given[(row.event.tenantId, row.event.sequence) := s.txns[id].input.content.metadata]), id)
    case Abort(id) => Release(sys, s, id)
  }

  /** The end of a transaction gives back the lock it holds, if any. */
  ghost function Release(sys: System, s: State, id: Id): State
    requires id in s.txns
  {
    s.(holders := if Critical(s.txns[id]) then s.holders - {sys.lockKey(Tenant(s.txns[id]))} else s.holders,
       txns := s.txns[id := s.txns[id].(phase := Finished)])
  }

  /** `s` is reached from the empty log by the actions, in order. */
  ghost predicate Reaches(sys: System, actions: seq<Action>, s: State) {
    if actions == [] then s == INITIAL
    else
      var n := |actions| - 1;
      exists p :: Reaches(sys, actions[..n], p) && Enabled(sys, p, actions[n]) && s == Do(sys, p, actions[n])
  }

  // ---------- the inductive invariant ----------

  ghost predicate LockInv(sys: System, s: State) {
    && (forall id :: id in s.txns && Critical(s.txns[id]) ==>
          var k := sys.lockKey(Tenant(s.txns[id]));
          k in s.holders && s.holders[k] == id)
    && (forall id :: id in s.txns ==> ValidInput(s.txns[id].input))
  }

  /** A transaction past its read still sees the newest committed row of its tenant. */
  ghost predicate ReadInv(sys: System, s: State) {
    forall id :: id in s.txns ==>
      var t := s.txns[id];
      && (t.phase.HasRead? ==> t.phase.last == LastRow(s.committed, Tenant(t)))
      && (t.phase.Inserted? ==> t.phase.row == NewRow(sys.digest, t.input, LastRow(s.committed, Tenant(t))))
  }

  /** The i-th row carries sequence i + 1, links to its predecessor, and its hash covers the metadata it was given. */
  ghost predicate ChainedAt(sys: System, s: State, c: seq<Row>, i: nat)
    requires i < |c|
  {
    var e := c[i].event;
    && e.sequence == i + 1
    && LinkHolds(c, i)
    && (e.tenantId, e.sequence) in s.given
    && var given := s.given[(e.tenantId, e.sequence)];
    && c[i].eventHash == sys.digest(e.(metadata := given))
    && WellFormed(given) && WellFormed(e.metadata) && StoredAs(OrNull(given), e.metadata)
  }

  ghost predicate ChainInv(sys: System, s: State) {
    forall tenant :: Chained(sys, s, TenantRows(s.committed, tenant))
  }

  ghost predicate Chained(sys: System, s: State, c: seq<Row>) {
    forall i: nat :: i < |c| ==> ChainedAt(sys, s, c, i)
  }

  ghost predicate Inv(sys: System, s: State) {
    LockInv(sys, s) && ReadInv(sys, s) && ChainInv(sys, s)
  }

  ghost predicate Numbered(c: seq<Row>) {
    forall i :: 0 <= i < |c| ==> c[i].event.sequence == i + 1
  }

  lemma {:induction false} InsertLast(row: Row, rows: seq<Row>)
    requires rows == [] || rows[|rows| - 1].event.sequence <= row.event.sequence
    ensures InsertBySequence(row, rows) == rows + [row]
  {
  }

  /** Rows already in sequence order are left alone by the query's ordering. */
  lemma {:induction false} SortKeepsOrdered(c: seq<Row>)
    requires Numbered(c)
    ensures SortBySequence(c) == c
  {
    if c != [] {
      var d := c[..|c| - 1];
      SortKeepsOrdered(d);
      InsertLast(c[|c| - 1], d);
      assert c == d + [c[|c| - 1]];
    }
  }

  lemma {:induction false} ChainIsTableOrder(sys: System, s: State, tenant: Option<Text>)
    requires Chained(sys, s, TenantRows(s.committed, tenant))
    ensures Chain(s.committed, tenant) == TenantRows(s.committed, tenant)
  {
    var c := TenantRows(s.committed, tenant);
    forall i | 0 <= i < |c|
      ensures c[i].event.sequence == i + 1
    {
      assert ChainedAt(sys, s, c, i);
    }
    SortKeepsOrdered(c);
  }

  lemma {:induction false} TenantRowsAppend(rows: seq<Row>, row: Row, tenant: Option<Text>)
    ensures TenantRows(rows + [row], tenant) ==
            TenantRows(rows, tenant) + (if row.event.tenantId == tenant then [row] else [])
  {
    assert (rows + [row])[..|rows|] == rows;
  }

  /** Only the holder of a tenant's lock can change its chain. */
  lemma OneWriter(sys: System, s: State, id: Id, other: Id)
    requires LockInv(sys, s) && id in s.txns && other in s.txns
    requires Critical(s.txns[id]) && Critical(s.txns[other])
    requires Tenant(s.txns[id]) == Tenant(s.txns[other])
    ensures id == other
  {
  }

  /** A row stays chained when rows are appended after it and its given metadata is unchanged. */
  lemma ChainedAtExtends(sys: System, s: State, s': State, c: seq<Row>, more: seq<Row>, i: nat)
    requires i < |c| && ChainedAt(sys, s, c, i)
    requires var k := (c[i].event.tenantId, c[i].event.sequence); k in s'.given && s'.given[k] == s.given[k]
    ensures ChainedAt(sys, s', c + more, i)
  {
    assert ExpectedPrevious(c + more, i) == ExpectedPrevious(c, i);
  }

  lemma CommitChainsRow(sys: System, s: State, id: Id)
    requires Inv(sys, s) && Enabled(sys, s, Commit(id))
    ensures var row := s.txns[id].phase.row;
            var c := TenantRows(s.committed, Tenant(s.txns[id]));
            row.event.tenantId == Tenant(s.txns[id]) && row.event.sequence == |c| + 1 &&
            ChainedAt(sys, Do(sys, s, Commit(id)), c + [row], |c|)
  {
    var t := s.txns[id];
    var c := TenantRows(s.committed, Tenant(t));
    ChainIsTableOrder(sys, s, Tenant(t));
    assert t.phase.row == NewRow(sys.digest, t.input, LastRow(s.committed, Tenant(t)));
    if |c| > 0 { assert ChainedAt(sys, s, c, |c| - 1); }
    assert t.phase.row.event.(metadata := t.input.content.metadata) ==
            Linked(t.input.content, LastRow(s.committed, Tenant(t)));
  }

  lemma CommitKeepsChain(sys: System, s: State, id: Id)
    requires Inv(sys, s) && Enabled(sys, s, Commit(id))
    ensures ChainInv(sys, Do(sys, s, Commit(id)))
  {
    var s' := Do(sys, s, Commit(id));
    var row := s.txns[id].phase.row;
    CommitChainsRow(sys, s, id);
    forall tenant
      ensures Chained(sys, s', TenantRows(s'.committed, tenant))
    {
      var c := TenantRows(s.committed, tenant);
      var more := if row.event.tenantId == tenant then [row] else [];
      TenantRowsAppend(s.committed, row, tenant);
      forall i: nat | i < |c|
        ensures ChainedAt(sys, s', c + more, i)
      {
        assert Chained(sys, s, c);
        assert ChainedAt(sys, s, c, i);
        ChainedAtExtends(sys, s, s', c, more, i);
      }
    }
  }

  lemma CommitKeepsReads(sys: System, s: State, id: Id)
    requires LockInv(sys, s) && ReadInv(sys, s) && Enabled(sys, s, Commit(id))
    ensures ReadInv(sys, Do(sys, s, Commit(id)))
  {
    var s' := Do(sys, s, Commit(id));
    forall other | other in s'.txns && Critical(s'.txns[other])
      ensures other != id && LastRow(s'.committed, Tenant(s.txns[other])) == LastRow(s.committed, Tenant(s.txns[other]))
    {
      OtherTenantUntouched(sys, s, id, other);
    }
  }

  lemma OtherTenantUntouched(sys: System, s: State, id: Id, other: Id)
    requires LockInv(sys, s) && ReadInv(sys, s) && Enabled(sys, s, Commit(id))
    requires other != id && other in s.txns && Critical(s.txns[other])
    ensures TenantRows(Do(sys, s, Commit(id)).committed, Tenant(s.txns[other])) ==
            TenantRows(s.committed, Tenant(s.txns[other]))
  {
    if Tenant(s.txns[other]) == Tenant(s.txns[id]) { OneWriter(sys, s, id, other); }
    TenantRowsAppend(s.committed, s.txns[id].phase.row, Tenant(s.txns[other]));
  }

  lemma StepKeepsLocks(sys: System, s: State, a: Action)
    requires LockInv(sys, s) && Enabled(sys, s, a)
    ensures LockInv(sys, Do(sys, s, a))
  {
  }

  lemma StepKeepsInv(sys: System, s: State, a: Action)
    requires Inv(sys, s) && Enabled(sys, s, a)
    ensures Inv(sys, Do(sys, s, a))
  {
    StepKeepsLocks(sys, s, a);
    if a.Commit? {
      CommitKeepsChain(sys, s, a.id);
      CommitKeepsReads(sys, s, a.id);
    } else {
      OtherStepKeepsReads(sys, s, a);
      OtherStepKeepsChain(sys, s, a);
    }
  }

  lemma OtherStepKeepsReads(sys: System, s: State, a: Action)
    requires Inv(sys, s) && Enabled(sys, s, a) && !a.Commit?
    ensures ReadInv(sys, Do(sys, s, a))
  {
    assert Do(sys, s, a).committed == s.committed;
  }

  lemma OtherStepKeepsChain(sys: System, s: State, a: Action)
    requires ChainInv(sys, s) && Enabled(sys, s, a) && !a.Commit?
    ensures ChainInv(sys, Do(sys, s, a))
  {
    var s' := Do(sys, s, a);
    assert s'.committed == s.committed && s'.given == s.given;
    SameLogSameChain(sys, s, s');
  }

  lemma SameLogSameChain(sys: System, s: State, s': State)
    requires ChainInv(sys, s) && s'.committed == s.committed && s'.given == s.given
    ensures ChainInv(sys, s')
  {
    forall tenant
      ensures Chained(sys, s', TenantRows(s'.committed, tenant))
    {
      var c := TenantRows(s.committed, tenant);
      assert Chained(sys, s, c);
      assert forall i: nat :: i < |c| && ChainedAt(sys, s, c, i) ==> ChainedAt(sys, s', c, i);
    }
  }

  lemma {:induction false} ReachableInv(sys: System, actions: seq<Action>, s: State)
    requires Reaches(sys, actions, s)
    ensures Inv(sys, s)
  {
    if actions != [] {
      var n := |actions| - 1;
      var p :| Reaches(sys, actions[..n], p) && Enabled(sys, p, actions[n]) && s == Do(sys, p, actions[n]);
      ReachableInv(sys, actions[..n], p);
      StepKeepsInv(sys, p, actions[n]);
    }
  }

  // ---------- what every run guarantees ----------

  /** In every interleaving each tenant's sequence numbers are exactly 1..n and the chain never forks. */
  lemma {:induction false} NoFork(sys: System, actions: seq<Action>, s: State, tenant: Option<Text>)
    requires Reaches(sys, actions, s)
    ensures Chain(s.committed, tenant) == TenantRows(s.committed, tenant)
    ensures forall i: nat :: i < |Chain(s.committed, tenant)| ==>
      Chain(s.committed, tenant)[i].event.sequence == i + 1 && LinkHolds(Chain(s.committed, tenant), i)
  {
    ReachableInv(sys, actions, s);
    ChainIsTableOrder(sys, s, tenant);
    var c := Chain(s.committed, tenant);
    forall i: nat | i < |c|
      ensures c[i].event.sequence == i + 1 && LinkHolds(c, i)
    {
      assert ChainedAt(sys, s, c, i);
    }
  }

  /** The transactions that committed, in the order of their commits. */
  function Commits(actions: seq<Action>): seq<Id> {
    if actions == [] then []
    else
      var last := actions[|actions| - 1];
      Commits(actions[..|actions| - 1]) + (if last.Commit? then [last.id] else [])
  }

  predicate Began(actions: seq<Action>, id: Id, input: Input) {
    Begin(id, input) in actions
  }

  ghost predicate BeganInv(actions: seq<Action>, s: State) {
    && (forall id :: id in s.txns ==> Began(actions, id, s.txns[id].input))
    && (forall id, input :: Began(actions, id, input) ==> id in s.txns && s.txns[id].input == input)
  }

  /** The i-th row of the table is of the i-th transaction that committed. */
  ghost predicate RecordedAt(sys: System, s: State, ids: seq<Id>, i: nat)
    requires i < |ids| && i < |s.committed|
  {
    && ids[i] in s.txns && s.txns[ids[i]].phase.Finished?
    && ValidInput(s.txns[ids[i]].input) && Records(sys.digest, s.committed[i], s.txns[ids[i]].input)
  }

  ghost predicate CommitInv(sys: System, ids: seq<Id>, s: State) {
    && |s.committed| == |ids| && (forall i, j :: 0 <= i < j < |ids| ==> ids[i] != ids[j])
    && (forall i: nat :: i < |ids| ==> RecordedAt(sys, s, ids, i))
  }

  lemma BeganStep(sys: System, actions: seq<Action>, s: State, a: Action)
    requires BeganInv(actions, s) && Enabled(sys, s, a)
    ensures BeganInv(actions + [a], Do(sys, s, a))
  {
    var s' := Do(sys, s, a);
    forall id | id in s'.txns
      ensures Began(actions + [a], id, s'.txns[id].input)
    {
      if id in s.txns { assert Began(actions, id, s.txns[id].input); }
    }
    forall id, input | Began(actions + [a], id, input)
      ensures id in s'.txns && s'.txns[id].input == input
    {
      assert Began(actions, id, input) || a == Begin(id, input);
    }
  }

  lemma CommitStep(sys: System, ids: seq<Id>, s: State, a: Action)
    requires Inv(sys, s) && CommitInv(sys, ids, s) && Enabled(sys, s, a)
    ensures CommitInv(sys, ids + (if a.Commit? then [a.id] else []), Do(sys, s, a))
  {
    var s', all := Do(sys, s, a), ids + (if a.Commit? then [a.id] else []);
    forall i: nat | i < |ids|
      ensures RecordedAt(sys, s', all, i) && (a.Commit? ==> ids[i] != a.id)
    {
      assert RecordedAt(sys, s, ids, i);
      RecordStays(sys, s, ids, i, a);
    }
    if a.Commit? { RecordAdded(sys, s, ids, a.id); }
  }

  lemma RecordStays(sys: System, s: State, ids: seq<Id>, i: nat, a: Action)
    requires i < |ids| && |ids| == |s.committed| && RecordedAt(sys, s, ids, i) && Enabled(sys, s, a)
    ensures i < |Do(sys, s, a).committed| && RecordedAt(sys, Do(sys, s, a), ids + (if a.Commit? then [a.id] else []), i)
    ensures a.Commit? ==> ids[i] != a.id
  {
  }

  lemma RecordAdded(sys: System, s: State, ids: seq<Id>, id: Id)
    requires LockInv(sys, s) && ReadInv(sys, s) && |ids| == |s.committed| && Enabled(sys, s, Commit(id))
    ensures |Do(sys, s, Commit(id)).committed| == |ids| + 1
    ensures RecordedAt(sys, Do(sys, s, Commit(id)), ids + [id], |ids|)
  {
    NewRowRecords(sys.digest, s.txns[id].input, LastRow(s.committed, Tenant(s.txns[id])));
  }

  lemma {:induction false} CommitsKept(sys: System, actions: seq<Action>, s: State)
    requires Reaches(sys, actions, s)
    ensures BeganInv(actions, s) && CommitInv(sys, Commits(actions), s)
  {
    if actions != [] {
      var n := |actions| - 1;
      var p :| Reaches(sys, actions[..n], p) && Enabled(sys, p, actions[n]) && s == Do(sys, p, actions[n]);
      CommitsKept(sys, actions[..n], p);
      ReachableInv(sys, actions[..n], p);
      BeganStep(sys, actions[..n], p, actions[n]);
      CommitStep(sys, Commits(actions[..n]), p, actions[n]);
      assert actions == actions[..n] + [actions[n]];
    }
  }

  /** In every interleaving each transaction that commits leaves exactly one row, in commit order, and the row records the
      input that the transaction began with. */
  lemma {:induction false} CommitsRecorded(sys: System, actions: seq<Action>, s: State)
    requires Reaches(sys, actions, s)
    ensures var ids := Commits(actions);
      && |s.committed| == |ids| && (forall i, j :: 0 <= i < j < |ids| ==> ids[i] != ids[j])
      && forall i :: 0 <= i < |ids| ==> RowOf(sys, actions, ids[i], s.committed[i])
  {
    CommitsKept(sys, actions, s);
    var ids := Commits(actions);
    forall i | 0 <= i < |ids|
      ensures RowOf(sys, actions, ids[i], s.committed[i])
    {
      assert RecordedAt(sys, s, ids, i);
      assert Began(actions, ids[i], s.txns[ids[i]].input);
    }
  }

  /** The transaction began, with a single input, and the row records it. */
  ghost predicate RowOf(sys: System, actions: seq<Action>, id: Id, row: Row) {
    && (exists input :: Began(actions, id, input))
    && forall input :: Began(actions, id, input) ==>
      Records(sys.digest, row, input) && StoredAs(OrNull(input.content.metadata), row.event.metadata)
  }

  /** The metadata that the i-th row of the tenant was given. */
  ghost function Given(s: State, row: Row): Json {
    var k := (row.event.tenantId, row.event.sequence);
    if k in s.given then s.given[k] else Null
  }

  /** Storing a committed row did not make two different canonical texts collide. */
  ghost predicate NoStorageCollision(sha: Text -> Text, s: State) {
    forall row :: row in s.committed ==>
      var hashed := row.event.(metadata := Given(s, row));
      sha(EventText(row.event)) == sha(EventText(hashed)) ==> EventText(row.event) == EventText(hashed)
  }

  /** The digest is faithful between each row of the chain as stored and as it was hashed. */
  ghost predicate FaithfulStorage(sys: System, s: State, c: seq<Row>) {
    forall i :: 0 <= i < |c| ==> Faithful(sys.digest, c[i].event, c[i].event.(metadata := Given(s, c[i])))
  }

  /** In every interleaving the walk accepts a tenant's chain exactly when no metadata ever appended to it
      had an undefined field. */
  lemma {:induction false} VerifyAcceptsEveryRun(sys: System, sha: Text -> Text, actions: seq<Action>, s: State,
          tenant: Option<Text>)
    requires sys.digest == ComputeEventHash(sha)
    requires Reaches(sys, actions, s) && NoStorageCollision(sha, s)
    ensures Intact(sys.digest, Chain(s.committed, tenant)) <==>
            forall i :: 0 <= i < |Chain(s.committed, tenant)| ==> NoUndefinedField(Given(s, Chain(s.committed, tenant)[i]))
  {
    ReachableInv(sys, actions, s);
    ChainIsTableOrder(sys, s, tenant);
    StorageFaithful(sys, sha, s, TenantRows(s.committed, tenant));
    AcceptsExactly(sys, s, TenantRows(s.committed, tenant));
  }

  lemma StorageFaithful(sys: System, sha: Text -> Text, s: State, c: seq<Row>)
    requires sys.digest == ComputeEventHash(sha) && NoStorageCollision(sha, s)
    requires Chained(sys, s, c) && forall i :: 0 <= i < |c| ==> c[i] in s.committed
    ensures FaithfulStorage(sys, s, c)
  {
    forall i | 0 <= i < |c|
      ensures Faithful(sys.digest, c[i].event, c[i].event.(metadata := Given(s, c[i])))
    {
      assert ChainedAt(sys, s, c, i);
      DigestFaithful(sha, c[i].event, c[i].event.(metadata := Given(s, c[i])));
    }
  }

  lemma AcceptsExactly(sys: System, s: State, c: seq<Row>)
    requires Chained(sys, s, c) && FaithfulStorage(sys, s, c)
    ensures Intact(sys.digest, c) <==> forall i :: 0 <= i < |c| ==> NoUndefinedField(Given(s, c[i]))
  {
    forall i: nat | i < |c|
      ensures GoodAt(sys.digest, c, i) <==> NoUndefinedField(Given(s, c[i]))
    {
      assert ChainedAt(sys, s, c, i);
      StoredRowContent(sys, s, c[i]);
    }
  }

  lemma StoredRowContent(sys: System, s: State, row: Row)
    requires Faithful(sys.digest, row.event, row.event.(metadata := Given(s, row)))
    requires row.eventHash == sys.digest(row.event.(metadata := Given(s, row)))
    requires StoredAs(OrNull(Given(s, row)), row.event.metadata)
    ensures ContentHolds(sys.digest, row) <==> NoUndefinedField(Given(s, row))
  {
    var g := Given(s, row);
    StoredSame(OrNull(g), row.event.metadata);
    SameSymmetric(row.event.metadata, g);
    OrNullSame(g, row.event.metadata);
    assert OrNull(row.event.metadata) == row.event.metadata;
  }

  lemma {:induction false} ReachesNext(sys: System, actions: seq<Action>, s: State, a: Action)
    requires Reaches(sys, actions, s) && Enabled(sys, s, a)
    ensures Reaches(sys, actions + [a], Do(sys, s, a))
  {
    assert (actions + [a])[..|actions|] == actions && (actions + [a])[|actions|] == a;
  }

  /** The run of a single append, and the row it leaves. */
  lemma SingleAppend(sys: System, input: Input) returns (actions: seq<Action>, s: State)
    requires ValidInput(input)
    ensures Reaches(sys, actions, s)
    ensures var row := NewRow(sys.digest, input, None);
      s.committed == [row] && Given(s, row) == input.content.metadata
  {
    var s1 := Do(sys, INITIAL, Begin(0, input));
    var s2 := Do(sys, s1, Acquire(0));
    var s3 := Do(sys, s2, ReadLast(0));
    var s4 := Do(sys, s3, InsertRow(0));
    ReachesNext(sys, [], INITIAL, Begin(0, input));
    ReachesNext(sys, [] + [Begin(0, input)], s1, Acquire(0));
    ReachesNext(sys, [] + [Begin(0, input)] + [Acquire(0)], s2, ReadLast(0));
    ReachesNext(sys, [] + [Begin(0, input)] + [Acquire(0)] + [ReadLast(0)], s3, InsertRow(0));
    ReachesNext(sys, [] + [Begin(0, input)] + [Acquire(0)] + [ReadLast(0)] + [InsertRow(0)], s4, Commit(0));
    actions := [] + [Begin(0, input)] + [Acquire(0)] + [ReadLast(0)] + [InsertRow(0)] + [Commit(0)];
    s := Do(sys, s4, Commit(0));
  }

  /** One append whose metadata has an undefined field is enough: a run without any tampering, whose chain the walk
      rejects. */
  lemma {:induction false} SingleChain(sys: System, actions: seq<Action>, s: State, row: Row)
    requires Reaches(sys, actions, s) && s.committed == [row]
    ensures Chain(s.committed, row.event.tenantId) == [row]
  {
    NoFork(sys, actions, s, row.event.tenantId);
    TenantRowsAppend([], row, row.event.tenantId);
    assert [] + [row] == [row];
  }

  lemma {:induction false} UndefinedFieldRejected(sys: System, sha: Text -> Text, input: Input)
    requires sys.digest == ComputeEventHash(sha) && ValidInput(input) && !NoUndefinedField(input.content.metadata)
    requires var e := Linked(input.content, None);
      sha(EventText(e.(metadata := input.stored))) == sha(EventText(e)) ==>
        EventText(e.(metadata := input.stored)) == EventText(e)
    ensures exists actions, s :: Reaches(sys, actions, s) && !Intact(sys.digest, Chain(s.committed, input.content.tenantId))
  {
    var actions, s := SingleAppend(sys, input);
    var tenant, row := input.content.tenantId, NewRow(sys.digest, input, None);
    assert NoStorageCollision(sha, s) by { SingleNoCollision(sys, sha, input, s); }
    SingleChain(sys, actions, s, row);
    VerifyAcceptsEveryRun(sys, sha, actions, s, tenant);
    assert !NoUndefinedField(Given(s, Chain(s.committed, tenant)[0]));
  }

  lemma SingleNoCollision(sys: System, sha: Text -> Text, input: Input, s: State)
    requires var row := NewRow(sys.digest, input, None);
      s.committed == [row] && Given(s, row) == input.content.metadata
    requires var e := Linked(input.content, None);
      sha(EventText(e.(metadata := input.stored))) == sha(EventText(e)) ==>
        EventText(e.(metadata := input.stored)) == EventText(e)
    ensures NoStorageCollision(sha, s)
  {
    var row := NewRow(sys.digest, input, None);
    assert row.event.(metadata := Given(s, row)) == Linked(input.content, None);
  }

  /** Such an append exists: an object with one undefined field, which storage gives back empty. */
  lemma UndefinedFieldInput(content: Event) returns (input: Input)
    ensures input.content == content.(metadata := Obj([Field([97], Undefined)]))
    ensures ValidInput(input) && !NoUndefinedField(input.content.metadata)
  {
    var v := Obj([Field([97], Undefined)]);
    input := Input(content.(metadata := v), Obj([]));
    GetAt(v.fields, 0);
    assert Keys(v.fields) == [[97]];
  }

  /** The steps of one append up to its read, if each is enabled when its turn comes. */
  ghost function ReadAlone(sys: System, s: State, id: Id, input: Input): Option<State> {
    if !Enabled(sys, s, Begin(id, input)) then None else
    var s1 := Do(sys, s, Begin(id, input));
    if !Enabled(sys, s1, Acquire(id)) then None else
    var s2 := Do(sys, s1, Acquire(id));
    if !Enabled(sys, s2, ReadLast(id)) then None else Some(Do(sys, s2, ReadLast(id)))
  }

  ghost function WriteAlone(sys: System, s: State, id: Id): Option<State> {
    if !Enabled(sys, s, InsertRow(id)) then None else
    var s1 := Do(sys, s, InsertRow(id));
    if !Enabled(sys, s1, Commit(id)) then None else Some(Do(sys, s1, Commit(id)))
  }

  lemma ReadAloneReads(sys: System, s: State, id: Id, input: Input)
    requires id !in s.txns && ValidInput(input) && sys.lockKey(input.content.tenantId) !in s.holders
    ensures var last := LastRow(s.committed, input.content.tenantId);
      ReadAlone(sys, s, id, input) == Some(s.(
        holders := s.holders[sys.lockKey(input.content.tenantId) := id],
        txns := s.txns[id := Txn(input, HasRead(last))]))
  {
    var last := LastRow(s.committed, input.content.tenantId);
    Overwrite(s.txns, id, Txn(input, Waiting), Txn(input, Locked));
    Overwrite(s.txns, id, Txn(input, Locked), Txn(input, HasRead(last)));
  }

  lemma Overwrite(txns: map<Id, Txn>, id: Id, t: Txn, u: Txn)
    ensures txns[id := t][id := u] == txns[id := u]
  {
  }

  lemma LockReturned(holders: map<int, Id>, k: int, id: Id)
    requires k !in holders
    ensures holders[k := id] - {k} == holders
  {
  }

  lemma WriteAloneWrites(sys: System, s: State, id: Id, t: Txn)
    requires id in s.txns && s.txns[id] == t && t.phase.HasRead?
    ensures var r := WriteAlone(sys, s, id);
      && r.Some?
      && r.value.committed == s.committed + [NewRow(sys.digest, t.input, t.phase.last)]
      && r.value.holders == s.holders - {sys.lockKey(Tenant(t))}
  {
  }

  /** An append that meets no competition has the effect of `EvidenceService.Append`. */
  lemma SerialAppend(sys: System, s: State, id: Id, input: Input)
    requires id !in s.txns && ValidInput(input) && sys.lockKey(input.content.tenantId) !in s.holders
    ensures ReadAlone(sys, s, id, input).Some?
    ensures var r := WriteAlone(sys, ReadAlone(sys, s, id, input).value, id);
      && r.Some?
      && r.value.committed == s.committed + [NewRow(sys.digest, input, LastRow(s.committed, input.content.tenantId))]
      && r.value.holders == s.holders
  {
    ReadAloneReads(sys, s, id, input);
    var last := LastRow(s.committed, input.content.tenantId);
    WriteAloneWrites(sys, ReadAlone(sys, s, id, input).value, id, Txn(input, HasRead(last)));
    LockReturned(s.holders, sys.lockKey(input.content.tenantId), id);
  }
}
