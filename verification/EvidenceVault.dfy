/** The append-only, hash-linked evidence log and its verification walk.

  The event digest (`computeEventHash`) is a parameter. No theorem assumes that the hash is
  injective: where one needs it, the assumption is that the texts hashed in the chains at
  hand do not collide. */
module EvidenceVault {
  import opened CanonicalJson
  import opened EvidenceHash
  import opened Wrappers

  datatype Row = Row(event: Event, eventHash: Text)

  datatype Reason = LinkBroken | ContentAltered
  datatype Break = Break(sequence: nat, reason: Reason)
  datatype Verification = Verification(intact: bool, totalEvents: nat, broken: Option<Break>)

  /** What a caller of `append` supplies; the database chooses `stored`, the form in which
      the JSONB column gives the metadata back. */
  datatype Input = Input(content: Event, stored: Json)

  // ---------- queries ----------

  /** `where: { tenantId }`, in table order. */
  function TenantRows(rows: seq<Row>, tenant: Option<Text>): (r: seq<Row>)
    ensures forall i :: 0 <= i < |r| ==> r[i].event.tenantId == tenant && r[i] in rows
  {
    if rows == [] then []
    else
      var last := rows[|rows| - 1];
      TenantRows(rows[..|rows| - 1], tenant) + (if last.event.tenantId == tenant then [last] else [])
  }

  /** The query finds every row of the tenant as often as the table has it. */
  lemma {:induction false} TenantRowsAll(rows: seq<Row>, tenant: Option<Text>, row: Row)
    ensures multiset(TenantRows(rows, tenant))[row] == if row.event.tenantId == tenant then multiset(rows)[row] else 0
  {
    if rows != [] {
      TenantRowsAll(rows[..|rows| - 1], tenant, row);
      LastSplit(rows);
    }
  }

  function InsertBySequence(row: Row, rows: seq<Row>): seq<Row> {
    if rows == [] || rows[|rows| - 1].event.sequence <= row.event.sequence then rows + [row]
    else InsertBySequence(row, rows[..|rows| - 1]) + [rows[|rows| - 1]]
  }

  /** `orderBy: { sequence: 'asc' }`. */
  function SortBySequence(rows: seq<Row>): seq<Row> {
    if rows == [] then [] else InsertBySequence(rows[|rows| - 1], SortBySequence(rows[..|rows| - 1]))
  }

  lemma {:induction false} InsertPermutes(row: Row, rows: seq<Row>)
    ensures multiset(InsertBySequence(row, rows)) == multiset(rows) + multiset{row}
  {
    if rows != [] {
      InsertPermutes(row, rows[..|rows| - 1]);
      assert rows == rows[..|rows| - 1] + [rows[|rows| - 1]];
    }
  }

  lemma LastSplit(rows: seq<Row>)
    requires rows != []
    ensures multiset(rows) == multiset(rows[..|rows| - 1]) + multiset{rows[|rows| - 1]}
  {
    assert rows == rows[..|rows| - 1] + [rows[|rows| - 1]];
  }

  /** The query orders the rows, it loses and repeats none. */
  lemma {:induction false} SortPermutes(rows: seq<Row>)
    ensures multiset(SortBySequence(rows)) == multiset(rows)
  {
    if rows != [] {
      SortPermutes(rows[..|rows| - 1]);
      InsertPermutes(rows[|rows| - 1], SortBySequence(rows[..|rows| - 1]));
      LastSplit(rows);
    }
  }

  function Chain(rows: seq<Row>, tenant: Option<Text>): seq<Row> {
    SortBySequence(TenantRows(rows, tenant))
  }

  /** `findFirst` with `orderBy: { sequence: 'desc' }`. */
  function LastRow(rows: seq<Row>, tenant: Option<Text>): Option<Row> {
    var c := Chain(rows, tenant);
    if c == [] then None else Some(c[|c| - 1])
  }

  // ---------- append ----------

  /** The content that `append` hashes when `last` is the newest row of the tenant. */
  function Linked(content: Event, last: Option<Row>): Event {
    if last.None? then content.(sequence := 1, previousHash := None)
    else content.(sequence := last.value.event.sequence + 1, previousHash := Some(last.value.eventHash))
  }

  /** The row that `append` creates: the hash covers the metadata as given, the row keeps it as stored. */
  function NewRow(digest: Event -> Text, input: Input, last: Option<Row>): Row {
    var e := Linked(input.content, last);
    Row(e.(metadata := input.stored), digest(e))
  }

  /** The row says what the caller gave: ten fields as they were, the metadata as the database stored it, and a hash of
      these fields with the metadata as it was given. */
  predicate Records(digest: Event -> Text, row: Row, input: Input) {
    var e, given := row.event, input.content;
    && e.tenantId == given.tenantId && e.actorId == given.actorId && e.actorType == given.actorType
    && e.entityType == given.entityType && e.entityId == given.entityId
    && e.eventType == given.eventType && e.eventDescription == given.eventDescription
    && e.ipAddress == given.ipAddress && e.deviceId == given.deviceId && e.occurredAt == given.occurredAt
    && e.metadata == input.stored
    && row.eventHash == digest(e.(metadata := given.metadata))
  }

  /** The row is the first of its tenant, or numbered after the tenant's last row and linked to it. */
  predicate Follows(row: Row, last: Option<Row>) {
    if last.None? then row.event.sequence == 1 && row.event.previousHash == None
    else row.event.sequence == last.value.event.sequence + 1 && row.event.previousHash == Some(last.value.eventHash)
  }

  lemma NewRowRecords(digest: Event -> Text, input: Input, last: Option<Row>)
    ensures Records(digest, NewRow(digest, input, last), input) && Follows(NewRow(digest, input, last), last)
  {
    var e := Linked(input.content, last);
    assert e.(metadata := input.stored).(metadata := input.content.metadata) == e;
  }

  ghost predicate ValidInput(input: Input) {
    && WellFormed(input.content.metadata)
    && WellFormed(input.stored)
    && StoredAs(OrNull(input.content.metadata), input.stored)
  }

  // ---------- what the walk accepts ----------

  function ExpectedPrevious(c: seq<Row>, i: nat): Option<Text>
    requires i < |c|
  {
    if i == 0 then None else Some(c[i - 1].eventHash)
  }

  predicate LinkHolds(c: seq<Row>, i: nat)
    requires i < |c|
  {
    c[i].event.previousHash == ExpectedPrevious(c, i)
  }

  predicate ContentHolds(digest: Event -> Text, row: Row) {
    digest(row.event) == row.eventHash
  }

  predicate GoodAt(digest: Event -> Text, c: seq<Row>, i: nat)
    requires i < |c|
  {
    LinkHolds(c, i) && ContentHolds(digest, c[i])
  }

  predicate Intact(digest: Event -> Text, c: seq<Row>) {
    forall i: nat :: i < |c| ==> GoodAt(digest, c, i)
  }

  /** `k` is the first event that breaks the chain. */
  predicate FirstBreak(digest: Event -> Text, c: seq<Row>, k: nat) {
    k < |c| && !GoodAt(digest, c, k) && forall i: nat :: i < k ==> GoodAt(digest, c, i)
  }

  class EvidenceService {
    const digest: Event -> Text
    var rows: seq<Row>

    constructor (digest: Event -> Text)
      ensures this.digest == digest && rows == []
    {
      this.digest := digest;
      rows := [];
    }

    method Append(input: Input) returns (row: Row)
      modifies this
      ensures row == NewRow(digest, input, LastRow(old(rows), input.content.tenantId))
      ensures Records(digest, row, input)
      ensures Follows(row, LastRow(old(rows), input.content.tenantId))
      ensures rows == old(rows) + [row]
    {
      var tenant := input.content.tenantId;
      var last := LastRow(rows, tenant);
      var previousHash := if last.None? then None else Some(last.value.eventHash);
      var sequence := (if last.None? then 0 else last.value.event.sequence) + 1;
      var event := input.content.(sequence := sequence, previousHash := previousHash);
      var eventHash := digest(event);
      row := Row(event.(metadata := input.stored), eventHash);
      rows := rows + [row];
      NewRowRecords(digest, input, last);
    }

    /** Walks the tenant's chain and names the first event that is altered or re-linked. */
    method VerifyChain(tenant: Option<Text>) returns (v: Verification)
      ensures v.totalEvents == |Chain(rows, tenant)|
      ensures v.intact <==> Intact(digest, Chain(rows, tenant))
      ensures v.intact <==> v.broken.None?
      ensures !v.intact ==> exists k: nat ::
        && FirstBreak(digest, Chain(rows, tenant), k)
        && v.broken == Some(Break(Chain(rows, tenant)[k].event.sequence,
                                  if LinkHolds(Chain(rows, tenant), k) then ContentAltered else LinkBroken))
    {
      var events := Chain(rows, tenant);
      var previousHash: Option<Text> := None;
      for i := 0 to |events|
        invariant previousHash == if i == 0 then None else Some(events[i - 1].eventHash)
        invariant forall j: nat :: j < i ==> GoodAt(digest, events, j)
      {
        var e := events[i];
        if e.event.previousHash != previousHash {
          assert FirstBreak(digest, events, i);
          return Verification(false, |events|, Some(Break(e.event.sequence, LinkBroken)));
        }
        var recomputed := digest(e.event);
        if recomputed != e.eventHash {
          assert FirstBreak(digest, events, i);
          return Verification(false, |events|, Some(Break(e.event.sequence, ContentAltered)));
        }
        previousHash := Some(e.eventHash);
      }
      return Verification(true, |events|, None);
    }
  }

  // ---------- the head hash determines the history ----------

  ghost predicate AllWellFormed(c: seq<Row>) {
    forall i :: 0 <= i < |c| ==> WellFormed(c[i].event.metadata)
  }

  /** The digest is faithful between the events of the two chains. */
  ghost predicate FaithfulBetween(digest: Event -> Text, a: seq<Row>, b: seq<Row>) {
    forall i, j :: 0 <= i < |a| && 0 <= j < |b| ==> Faithful(digest, a[i].event, b[j].event)
  }

  /** No two different canonical texts of the two chains have the same hash. */
  ghost predicate NoCollision(sha: Text -> Text, a: seq<Row>, b: seq<Row>) {
    forall i, j :: 0 <= i < |a| && 0 <= j < |b| && sha(EventText(a[i].event)) == sha(EventText(b[j].event)) ==>
      EventText(a[i].event) == EventText(b[j].event)
  }

  /** The same events in the same order, every hashed field equal, every stored hash equal. */
  ghost predicate SameHistory(a: seq<Row>, b: seq<Row>) {
    |a| == |b| && forall i :: 0 <= i < |a| ==> a[i].eventHash == b[i].eventHash && SameContent(a[i].event, b[i].event)
  }

  function Head(c: seq<Row>): Text
    requires c != []
  {
    c[|c| - 1].eventHash
  }

  lemma {:induction false} HeadDeterminesHistory(digest: Event -> Text, a: seq<Row>, b: seq<Row>)
    requires a != [] && b != [] && FaithfulBetween(digest, a, b)
    requires Intact(digest, a) && Intact(digest, b) && Head(a) == Head(b)
    ensures SameHistory(a, b)
    decreases |a|
  {
    var i, j := |a| - 1, |b| - 1;
    HeadsAgree(digest, a, b);
    if i > 0 {
      PrefixIntact(digest, a, i);
      PrefixIntact(digest, b, j);
      assert FaithfulBetween(digest, a[..i], b[..j]);
      HeadDeterminesHistory(digest, a[..i], b[..j]);
      assert forall k :: 0 <= k < i ==> a[k] == a[..i][k] && b[k] == b[..j][k];
    }
  }

  lemma HeadsAgree(digest: Event -> Text, a: seq<Row>, b: seq<Row>)
    requires a != [] && b != [] && FaithfulBetween(digest, a, b)
    requires Intact(digest, a) && Intact(digest, b) && Head(a) == Head(b)
    ensures SameContent(a[|a| - 1].event, b[|b| - 1].event)
    ensures |a| == 1 <==> |b| == 1
    ensures |a| > 1 ==> Head(a[..|a| - 1]) == Head(b[..|b| - 1])
  {
    var i, j := |a| - 1, |b| - 1;
    assert GoodAt(digest, a, i) && GoodAt(digest, b, j);
    assert Faithful(digest, a[i].event, b[j].event);
    assert a[i].event.previousHash == b[j].event.previousHash;
  }

  /** Every prefix of an intact chain is intact: without a known head, a lost tail goes unnoticed. */
  lemma PrefixIntact(digest: Event -> Text, c: seq<Row>, n: nat)
    requires n <= |c| && Intact(digest, c)
    ensures Intact(digest, c[..n])
  {
    forall i: nat | i < n
      ensures GoodAt(digest, c[..n], i)
    {
      assert GoodAt(digest, c, i);
    }
  }

  lemma SameHistoryIntact(digest: Event -> Text, a: seq<Row>, b: seq<Row>)
    requires Intact(digest, a) && SameHistory(a, b) && FaithfulBetween(digest, a, b)
    ensures Intact(digest, b)
  {
    forall i: nat | i < |b|
      ensures GoodAt(digest, b, i)
    {
      assert GoodAt(digest, a, i);
      assert Faithful(digest, a[i].event, b[i].event);
    }
  }

  /** With a known head the walk accepts exactly the recorded history: any edit, deletion, insertion
      or reordering that keeps the head hash is reported. */
  lemma TamperEvident(sha: Text -> Text, a: seq<Row>, b: seq<Row>)
    requires a != [] && b != [] && AllWellFormed(a) && AllWellFormed(b)
    requires NoCollision(sha, a, b)
    requires Intact(ComputeEventHash(sha), a) && Head(a) == Head(b)
    ensures Intact(ComputeEventHash(sha), b) <==> SameHistory(a, b)
  {
    var digest := ComputeEventHash(sha);
    forall i, j | 0 <= i < |a| && 0 <= j < |b|
      ensures Faithful(digest, a[i].event, b[j].event)
    {
      DigestFaithful(sha, a[i].event, b[j].event);
    }
    if Intact(digest, b) {
      HeadDeterminesHistory(digest, a, b);
    }
    if SameHistory(a, b) {
      SameHistoryIntact(digest, a, b);
    }
  }

  /** Replacing the content of one event and keeping its stored hash is reported at that very event,
      unless nothing but the key order of its metadata changed. */
  lemma EditPinpointed(digest: Event -> Text, a: seq<Row>, k: nat, e: Event)
    requires Intact(digest, a) && k < |a| && Faithful(digest, e, a[k].event)
    ensures !SameContent(e, a[k].event) <==> FirstBreak(digest, a[k := Row(e, a[k].eventHash)], k)
  {
    var b := a[k := Row(e, a[k].eventHash)];
    assert GoodAt(digest, a, k);
    forall i: nat | i < k
      ensures GoodAt(digest, b, i)
    {
      assert GoodAt(digest, a, i);
    }
  }
}
