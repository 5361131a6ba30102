/** The governance of registry entries and appeals, as a state machine that logs evidence. */
module RegistryLifecycle {
  import opened Normalization
  import opened Wrappers

  datatype Status = CANDIDATE | UNDER_REVIEW | APPROVED_PUBLIC_SAFE | PUBLISHED | REJECTED | ARCHIVED
  datatype AppealStatus = SUBMITTED | APPEAL_UNDER_REVIEW | ACCEPTED | APPEAL_REJECTED

  datatype Entry = Entry(
    id: string,
    kind: IndicatorType,
    value: string,
    normalized: string,
    category: string,
    status: Status,
    confidence: int,
    summary: string,
    lastSeen: int,
    sourceSignalId: string,
    approvedAt: Option<int>,
    publishedAt: Option<int>)

  datatype Appeal = Appeal(id: string, entryId: string, status: AppealStatus)

  datatype EntryEvent = CANDIDATE_CREATED | REGISTRY_APPROVED | REGISTRY_PUBLISHED | REGISTRY_UNPUBLISHED | REGISTRY_REJECTED
  datatype AppealEvent = APPEAL_FILED | APPEAL_REVIEW_STARTED | APPEAL_ACCEPTED | APPEAL_DECLINED

  /** One row of the evidence log, as far as replay is concerned. */
  datatype Evidence = OfEntry(id: string, event: EntryEvent) | OfAppeal(id: string, appealEvent: AppealEvent)

  datatype State = State(entries: seq<Entry>, appeals: seq<Appeal>, log: seq<Evidence>)

  const EMPTY: State := State([], [], [])

  datatype Error = NotFound | BadRequest | Conflict

  /** The columns of the source signal that a candidate is made from. */
  datatype SourceSignal = SourceSignal(
    id: string, verified: bool, kind: IndicatorType, value: string, normalized: string,
    category: Option<string>, confidence: int, lastSeen: int)

  /** `signal` is what the lookup gave; `safe` says whether the reviewer's texts passed the language gate. */
  datatype Action =
    | Create(signal: Option<SourceSignal>, newId: string, category: Option<string>, summary: string, safe: bool)
    | Approve(id: string, now: int)
    | Publish(id: string, now: int)
    | Unpublish(id: string)
    | Reject(id: string)
    | FileAppeal(entryId: string, newId: string)
    | StartReview(id: string)
    | Decide(id: string, accepted: bool, unpublishEntry: bool)

  // ---------- lookups ----------

  function Find(entries: seq<Entry>, id: string): (i: Option<nat>)
    ensures i.Some? ==> i.value < |entries| && entries[i.value].id == id
    ensures i.None? ==> forall j :: 0 <= j < |entries| ==> entries[j].id != id
  {
    FirstIndex(entries, (e: Entry) => e.id, id)
  }

  function FindAppeal(appeals: seq<Appeal>, id: string): (i: Option<nat>)
    ensures i.Some? ==> i.value < |appeals| && appeals[i.value].id == id
    ensures i.None? ==> forall j :: 0 <= j < |appeals| ==> appeals[j].id != id
  {
    FirstIndex(appeals, (a: Appeal) => a.id, id)
  }

  predicate HasSource(entries: seq<Entry>, signalId: string) {
    exists e :: e in entries && e.sourceSignalId == signalId
  }

  // ---------- the actions ----------

  function Candidate(a: Action, s: SourceSignal): Entry
    requires a.Create?
  {
    Entry(a.newId, s.kind, s.value, s.normalized, OrDefault(OrElse(a.category, s.category), "OTHER"), CANDIDATE,
          s.confidence, a.summary, s.lastSeen, s.id, None, None)
  }

  function CreateError(s: State, signal: Option<SourceSignal>, safe: bool): Option<Error> {
    if signal.None? then Some(NotFound)
    else if !signal.value.verified || !safe then Some(BadRequest)
    else if HasSource(s.entries, signal.value.id) then Some(Conflict)
    else None
  }

  /** `requireStatus`. */
  function StatusError(s: State, id: string, allowed: set<Status>): Option<Error> {
    var i := Find(s.entries, id);
    if i.None? then Some(NotFound) else if s.entries[i.value].status !in allowed then Some(BadRequest) else None
  }

  function AppealError(s: State, id: string, allowed: set<AppealStatus>): Option<Error> {
    var i := FindAppeal(s.appeals, id);
    if i.None? then Some(NotFound) else if s.appeals[i.value].status !in allowed then Some(BadRequest) else None
  }

  /** Rewrite one entry and log one event about it. */
  function Moved(s: State, id: string, status: Status, publishedAt: Option<int>, approvedAt: Option<int>,
          event: EntryEvent): State
    requires Find(s.entries, id).Some?
  {
    var i := Find(s.entries, id).value;
    s.(entries := s.entries[i := s.entries[i].(status := status, publishedAt := publishedAt, approvedAt := approvedAt)],
       log := s.log + [OfEntry(id, event)])
  }

  function Row(s: State, id: string): Entry
    requires Find(s.entries, id).Some?
  {
    s.entries[Find(s.entries, id).value]
  }

  function Unpublished(s: State, id: string): State
    requires Find(s.entries, id).Some?
  {
    Moved(s, id, APPROVED_PUBLIC_SAFE, None, Row(s, id).approvedAt, REGISTRY_UNPUBLISHED)
  }

  function AppealMoved(s: State, id: string, status: AppealStatus, event: AppealEvent): State
    requires FindAppeal(s.appeals, id).Some?
  {
    var i := FindAppeal(s.appeals, id).value;
    s.(appeals := s.appeals[i := s.appeals[i].(status := status)], log := s.log + [OfAppeal(id, event)])
  }

  /** An accepted appeal takes its entry down, if that was asked for and the entry is public. */
  predicate TakesDown(s: State, a: Action)
    requires a.Decide?
  {
    && AppealError(s, a.id, {SUBMITTED, APPEAL_UNDER_REVIEW}).None?
    && a.accepted && a.unpublishEntry
    && var e := Find(s.entries, s.appeals[FindAppeal(s.appeals, a.id).value].entryId);
       e.Some? && s.entries[e.value].status == PUBLISHED
  }

  function ErrorOf(s: State, a: Action): Option<Error> {
    match a
    case Create(signal, _, _, _, safe) => CreateError(s, signal, safe)
    case Approve(id, _) => StatusError(s, id, {CANDIDATE, UNDER_REVIEW})
    case Publish(id, _) => StatusError(s, id, {APPROVED_PUBLIC_SAFE})
    case Unpublish(id) => StatusError(s, id, {PUBLISHED})
    case Reject(id) => StatusError(s, id, {CANDIDATE, UNDER_REVIEW, APPROVED_PUBLIC_SAFE})
    case FileAppeal(entryId, _) =>
      if StatusError(s, entryId, {PUBLISHED}).Some? then Some(NotFound) else None
    case StartReview(id) => AppealError(s, id, {SUBMITTED})
    case Decide(id, _, _) => AppealError(s, id, {SUBMITTED, APPEAL_UNDER_REVIEW})
  }

  /** The state after the action; an action that fails changes nothing. */
  function Do(s: State, a: Action): State {
    if ErrorOf(s, a).Some? then s
    else match a
      case Create(signal, newId, _, _, _) =>
        s.(entries := s.entries + [Candidate(a, signal.value)], log := s.log + [OfEntry(newId, CANDIDATE_CREATED)])
      case Approve(id, now) => Moved(s, id, APPROVED_PUBLIC_SAFE, Row(s, id).publishedAt, Some(now), REGISTRY_APPROVED)
      case Publish(id, now) => Moved(s, id, PUBLISHED, Some(now), Row(s, id).approvedAt, REGISTRY_PUBLISHED)
      case Unpublish(id) => Unpublished(s, id)
      case Reject(id) => Moved(s, id, REJECTED, Row(s, id).publishedAt, Row(s, id).approvedAt, REGISTRY_REJECTED)
      case FileAppeal(entryId, newId) =>
        s.(appeals := s.appeals + [Appeal(newId, entryId, SUBMITTED)], log := s.log + [OfAppeal(newId, APPEAL_FILED)])
      case StartReview(id) => AppealMoved(s, id, APPEAL_UNDER_REVIEW, APPEAL_REVIEW_STARTED)
      case Decide(id, accepted, _) =>
        var t := if TakesDown(s, a) then Unpublished(s, s.appeals[FindAppeal(s.appeals, id).value].entryId) else s;
        AppealMoved(t, id, if accepted then ACCEPTED else APPEAL_REJECTED,
                    if accepted then APPEAL_ACCEPTED else APPEAL_DECLINED)
  }

  /** New identifiers are fresh. */
  predicate Fresh(s: State, a: Action) {
    (a.Create? ==> Find(s.entries, a.newId).None?) && (a.FileAppeal? ==> FindAppeal(s.appeals, a.newId).None?)
  }

  function Run(actions: seq<Action>): State {
    if actions == [] then EMPTY else Do(Run(actions[..|actions| - 1]), actions[|actions| - 1])
  }

  predicate AllFresh(actions: seq<Action>) {
    actions == [] ||
    (AllFresh(actions[..|actions| - 1]) && Fresh(Run(actions[..|actions| - 1]), actions[|actions| - 1]))
  }

  // ---------- replay ----------

  function After(event: EntryEvent): Status {
    match event
    case CANDIDATE_CREATED => CANDIDATE
    case REGISTRY_APPROVED => APPROVED_PUBLIC_SAFE
    case REGISTRY_PUBLISHED => PUBLISHED
    case REGISTRY_UNPUBLISHED => APPROVED_PUBLIC_SAFE
    case REGISTRY_REJECTED => REJECTED
  }

  /** The transitions that evidence may record. */
  predicate Follows(before: Option<Status>, event: EntryEvent) {
    match event
    case CANDIDATE_CREATED => before.None?
    case REGISTRY_APPROVED => before == Some(CANDIDATE)
    case REGISTRY_PUBLISHED => before == Some(APPROVED_PUBLIC_SAFE)
    case REGISTRY_UNPUBLISHED => before == Some(PUBLISHED)
    case REGISTRY_REJECTED => before == Some(CANDIDATE) || before == Some(APPROVED_PUBLIC_SAFE)
  }

  /** The status of an entry, rebuilt from the evidence alone. */
  function Replay(log: seq<Evidence>, id: string): Option<Status> {
    if log == [] then None
    else
      var e := log[|log| - 1];
      if e.OfEntry? && e.id == id then Some(After(e.event)) else Replay(log[..|log| - 1], id)
  }

  /** Every recorded event follows the status that the earlier events lead to. */
  predicate LegalLog(log: seq<Evidence>) {
    log == [] ||
    (var e := log[|log| - 1];
     LegalLog(log[..|log| - 1]) && (e.OfEntry? ==> Follows(Replay(log[..|log| - 1], e.id), e.event)))
  }

  function Count(log: seq<Evidence>, id: string, event: EntryEvent): nat {
    if log == [] then 0
    else Count(log[..|log| - 1], id, event) + (if log[|log| - 1] == OfEntry(id, event) then 1 else 0)
  }

  ghost predicate DistinctIds(entries: seq<Entry>) {
    forall i, j :: 0 <= i < j < |entries| ==> entries[i].id != entries[j].id
  }

  ghost predicate OneEntryPerSource(entries: seq<Entry>) {
    forall i, j :: 0 <= i < j < |entries| ==> entries[i].sourceSignalId != entries[j].sourceSignalId
  }

  ghost predicate ReplayRight(s: State) {
    && (forall i :: 0 <= i < |s.entries| ==> Replay(s.log, s.entries[i].id) == Some(s.entries[i].status))
    && (forall id :: Find(s.entries, id).None? ==> Replay(s.log, id).None?)
  }

  ghost predicate PublishedAtRight(s: State) {
    forall i :: 0 <= i < |s.entries| ==> (s.entries[i].status == PUBLISHED <==> s.entries[i].publishedAt.Some?)
  }

  ghost predicate Inv(s: State) {
    && DistinctIds(s.entries) && OneEntryPerSource(s.entries)
    && ReplayRight(s) && PublishedAtRight(s) && LegalLog(s.log)
  }

  lemma {:induction false} LogAppend(log: seq<Evidence>, e: Evidence, id: string)
    ensures Replay(log + [e], id) == if e.OfEntry? && e.id == id then Some(After(e.event)) else Replay(log, id)
    ensures LegalLog(log + [e]) <==> LegalLog(log) && (e.OfEntry? ==> Follows(Replay(log, e.id), e.event))
  {
    assert (log + [e])[..|log|] == log;
  }

  lemma {:induction false} FindUnique(entries: seq<Entry>, i: nat)
    requires DistinctIds(entries) && i < |entries|
    ensures Find(entries, entries[i].id) == Some(i)
  {
  }

  /** Rewriting one entry's status with a matching event keeps the invariant. */
  lemma {:induction false} MovedKeepsInv(s: State, id: string, status: Status, publishedAt: Option<int>,
          approvedAt: Option<int>, event: EntryEvent)
    requires Inv(s) && Find(s.entries, id).Some?
    requires Follows(Some(Row(s, id).status), event) && After(event) == status
    requires status == PUBLISHED <==> publishedAt.Some?
    ensures Inv(Moved(s, id, status, publishedAt, approvedAt, event))
  {
    MovedReplays(s, id, status, publishedAt, approvedAt, event);
    LogAppend(s.log, OfEntry(id, event), id);
  }

  lemma {:induction false} MovedReplays(s: State, id: string, status: Status, publishedAt: Option<int>,
          approvedAt: Option<int>, event: EntryEvent)
    requires DistinctIds(s.entries) && ReplayRight(s) && Find(s.entries, id).Some? && After(event) == status
    ensures ReplayRight(Moved(s, id, status, publishedAt, approvedAt, event))
  {
    var t := Moved(s, id, status, publishedAt, approvedAt, event);
    var i := Find(s.entries, id).value;
    forall j | 0 <= j < |t.entries|
      ensures Replay(t.log, t.entries[j].id) == Some(t.entries[j].status)
    {
      LogAppend(s.log, OfEntry(id, event), t.entries[j].id);
    }
    forall other | Find(t.entries, other).None?
      ensures Replay(t.log, other).None?
    {
      LogAppend(s.log, OfEntry(id, event), other);
      assert forall j :: 0 <= j < |s.entries| ==> s.entries[j].id == t.entries[j].id;
      assert other != id by { assert t.entries[i].id == id; }
      assert Find(s.entries, other).None?;
    }
  }

  lemma {:induction false} AppealMovedKeepsInv(s: State, id: string, status: AppealStatus, event: AppealEvent)
    requires Inv(s) && FindAppeal(s.appeals, id).Some?
    ensures Inv(AppealMoved(s, id, status, event))
  {
    AppealEventKeepsInv(s, AppealMoved(s, id, status, event).appeals, OfAppeal(id, event));
  }

  lemma AppealEventKeepsInv(s: State, appeals: seq<Appeal>, e: Evidence)
    requires Inv(s) && e.OfAppeal?
    ensures Inv(s.(appeals := appeals, log := s.log + [e]))
  {
    forall id
      ensures Replay(s.log + [e], id) == Replay(s.log, id)
    {
      LogAppend(s.log, e, id);
    }
    LogAppend(s.log, e, "");
  }

  /** A new candidate and its event. */
  function Added(s: State, row: Entry): State {
    s.(entries := s.entries + [row], log := s.log + [OfEntry(row.id, CANDIDATE_CREATED)])
  }

  lemma AddedReplaysRows(s: State, row: Entry)
    requires ReplayRight(s) && Find(s.entries, row.id).None? && row.status == CANDIDATE
    ensures var t := Added(s, row);
      forall j :: 0 <= j < |t.entries| ==> Replay(t.log, t.entries[j].id) == Some(t.entries[j].status)
  {
    var t := Added(s, row);
    forall j | 0 <= j < |t.entries|
      ensures Replay(t.log, t.entries[j].id) == Some(t.entries[j].status)
    {
      LogAppend(s.log, OfEntry(row.id, CANDIDATE_CREATED), t.entries[j].id);
    }
  }

  lemma AddedNotFound(s: State, row: Entry, id: string)
    requires Find(Added(s, row).entries, id).None?
    ensures Find(s.entries, id).None? && id != row.id
  {
    var t := Added(s, row);
    assert t.entries[|s.entries|].id == row.id;
    assert forall j :: 0 <= j < |s.entries| ==> s.entries[j] == t.entries[j];
  }

  lemma AddedReplays(s: State, row: Entry)
    requires ReplayRight(s) && Find(s.entries, row.id).None? && row.status == CANDIDATE
    ensures ReplayRight(Added(s, row))
  {
    var t := Added(s, row);
    AddedReplaysRows(s, row);
    forall id | Find(t.entries, id).None?
      ensures Replay(t.log, id).None?
    {
      AddedNotFound(s, row, id);
      LogAppend(s.log, OfEntry(row.id, CANDIDATE_CREATED), id);
    }
  }

  lemma AddedDistinct(s: State, row: Entry)
    requires DistinctIds(s.entries) && OneEntryPerSource(s.entries)
    requires Find(s.entries, row.id).None? && !HasSource(s.entries, row.sourceSignalId)
    ensures DistinctIds(Added(s, row).entries) && OneEntryPerSource(Added(s, row).entries)
  {
    assert forall j :: 0 <= j < |s.entries| ==> s.entries[j] in s.entries;
  }

  lemma CreateKeepsInv(s: State, a: Action)
    requires Inv(s) && a.Create? && Fresh(s, a) && ErrorOf(s, a).None?
    ensures Inv(Do(s, a))
  {
    var row := Candidate(a, a.signal.value);
    assert Do(s, a) == Added(s, row);
    AddedReplays(s, row);
    AddedDistinct(s, row);
    LogAppend(s.log, OfEntry(row.id, CANDIDATE_CREATED), row.id);
  }

  lemma StepKeepsInv(s: State, a: Action)
    requires Inv(s) && Fresh(s, a)
    ensures Inv(Do(s, a))
  {
    if ErrorOf(s, a).None? {
      match a
      case Create(_, _, _, _, _) => CreateKeepsInv(s, a);
      case Approve(id, now) =>
        NeverUnderReview(s, id);
        MovedKeepsInv(s, id, APPROVED_PUBLIC_SAFE, Row(s, id).publishedAt, Some(now), REGISTRY_APPROVED);
      case Publish(id, now) => MovedKeepsInv(s, id, PUBLISHED, Some(now), Row(s, id).approvedAt, REGISTRY_PUBLISHED);
      case Unpublish(id) => MovedKeepsInv(s, id, APPROVED_PUBLIC_SAFE, None, Row(s, id).approvedAt, REGISTRY_UNPUBLISHED);
      case Reject(id) =>
        NeverUnderReview(s, id);
        MovedKeepsInv(s, id, REJECTED, Row(s, id).publishedAt, Row(s, id).approvedAt, REGISTRY_REJECTED);
      case FileAppeal(entryId, newId) =>
        AppealEventKeepsInv(s, s.appeals + [Appeal(newId, entryId, SUBMITTED)], OfAppeal(newId, APPEAL_FILED));
      case StartReview(id) => AppealMovedKeepsInv(s, id, APPEAL_UNDER_REVIEW, APPEAL_REVIEW_STARTED);
      case Decide(id, accepted, _) =>
        var entryId := s.appeals[FindAppeal(s.appeals, id).value].entryId;
        var t := if TakesDown(s, a) then Unpublished(s, entryId) else s;
        if TakesDown(s, a) {
          MovedKeepsInv(s, entryId, APPROVED_PUBLIC_SAFE, None, Row(s, entryId).approvedAt, REGISTRY_UNPUBLISHED);
        }
        AppealMovedKeepsInv(t, id, if accepted then ACCEPTED else APPEAL_REJECTED,
                            if accepted then APPEAL_ACCEPTED else APPEAL_DECLINED);
    }
  }

  lemma {:induction false} ReplayRange(log: seq<Evidence>, id: string)
    ensures Replay(log, id) != Some(UNDER_REVIEW) && Replay(log, id) != Some(ARCHIVED)
  {
    if log != [] { ReplayRange(log[..|log| - 1], id); }
  }

  /** No action leads to UNDER_REVIEW or ARCHIVED. */
  lemma {:induction false} NeverUnderReview(s: State, id: string)
    requires Inv(s) && Find(s.entries, id).Some?
    ensures Row(s, id).status != UNDER_REVIEW && Row(s, id).status != ARCHIVED
  {
    ReplayRange(s.log, id);
  }

  lemma {:induction false} EveryRun(actions: seq<Action>)
    requires AllFresh(actions)
    ensures Inv(Run(actions))
  {
    if actions != [] {
      var n := |actions| - 1;
      EveryRun(actions[..n]);
      StepKeepsInv(Run(actions[..n]), actions[n]);
    }
  }

  /** What a legal log says about an entry: publications and their withdrawals alternate, an entry that is or was public
      was approved first, and nothing follows a rejection. */
  lemma {:induction false} LegalCounts(log: seq<Evidence>, id: string)
    requires LegalLog(log)
    ensures Count(log, id, REGISTRY_PUBLISHED) - Count(log, id, REGISTRY_UNPUBLISHED) ==
            if Replay(log, id) == Some(PUBLISHED) then 1 else 0
    ensures Replay(log, id) == Some(PUBLISHED) || Replay(log, id) == Some(APPROVED_PUBLIC_SAFE) ==>
            Count(log, id, REGISTRY_APPROVED) > 0
    ensures Count(log, id, REGISTRY_REJECTED) == if Replay(log, id) == Some(REJECTED) then 1 else 0
  {
    if log != [] { LegalCounts(log[..|log| - 1], id); }
  }

  /** In every run: the evidence alone rebuilds each entry's status, an entry is PUBLISHED exactly when its publication
      time is set, then it was approved and published once more than withdrawn, and no signal has two entries. */
  lemma {:induction false} StatusFromEvidence(actions: seq<Action>, i: nat)
    requires AllFresh(actions) && i < |Run(actions).entries|
    ensures var s := Run(actions);
      var e := s.entries[i];
      && Replay(s.log, e.id) == Some(e.status)
      && (e.status == PUBLISHED <==> e.publishedAt.Some?)
      && (e.status == PUBLISHED ==> Count(s.log, e.id, REGISTRY_APPROVED) > 0)
      && Count(s.log, e.id, REGISTRY_PUBLISHED) - Count(s.log, e.id, REGISTRY_UNPUBLISHED) ==
        (if e.status == PUBLISHED then 1 else 0)
      && forall j :: 0 <= j < |s.entries| && s.entries[j].sourceSignalId == e.sourceSignalId ==> j == i
  {
    EveryRun(actions);
    LegalCounts(Run(actions).log, Run(actions).entries[i].id);
  }

  lemma RejectedStays(s: State, a: Action, i: nat)
    requires i < |s.entries| && s.entries[i].status == REJECTED && DistinctIds(s.entries)
    ensures i < |Do(s, a).entries| && Do(s, a).entries[i] == s.entries[i]
  {
    FindUnique(s.entries, i);
  }

  ghost predicate HoldsRow(s: State, i: nat, e: Entry) {
    i < |s.entries| && s.entries[i] == e
  }

  lemma {:induction false} RejectedStep(actions: seq<Action>, i: nat, e: Entry)
    requires actions != [] && AllFresh(actions) && e.status == REJECTED
    requires HoldsRow(Run(actions[..|actions| - 1]), i, e)
    ensures HoldsRow(Run(actions), i, e)
  {
    var before := actions[..|actions| - 1];
    assert DistinctIds(Run(before).entries) by { EveryRun(before); }
    RejectedStays(Run(before), actions[|actions| - 1], i);
  }

  /** A rejection is final: the entry is the same in every later state of the run. */
  lemma {:induction false} RejectedForever(actions: seq<Action>, n: nat, i: nat, e: Entry)
    requires AllFresh(actions) && n <= |actions|
    requires HoldsRow(Run(actions[..n]), i, e) && e.status == REJECTED
    ensures HoldsRow(Run(actions), i, e)
  {
    if n == |actions| {
      assert actions[..n] == actions;
    } else {
      var before := actions[..|actions| - 1];
      assert before[..n] == actions[..n];
      RejectedForever(before, n, i, e);
      RejectedStep(actions, i, e);
    }
  }

  predicate Open(status: AppealStatus) {
    status == SUBMITTED || status == APPEAL_UNDER_REVIEW
  }

  /** The action accepts an open appeal against this very entry and asks for the entry to be unpublished. */
  ghost predicate TakeDownOf(s: State, a: Action, id: string) {
    && a.Decide? && a.accepted && a.unpublishEntry
    && exists j :: 0 <= j < |s.appeals| && s.appeals[j].id == a.id && s.appeals[j].entryId == id && Open(s.appeals[j].status)
  }

  ghost predicate TakenDown(actions: seq<Action>, n: nat, id: string) {
    exists m :: n <= m < |actions| && TakeDownOf(Run(actions[..m]), actions[m], id)
  }

  /** What appeals may do to an entry: nothing, or take it down. */
  predicate TakenDownOnly(e: Entry, f: Entry) {
    f == e || (e.status == PUBLISHED && f == e.(status := APPROVED_PUBLIC_SAFE, publishedAt := None))
  }

  predicate OfAppeals(a: Action) {
    a.FileAppeal? || a.StartReview? || a.Decide?
  }

  lemma AppealStep(s: State, a: Action, i: nat)
    requires OfAppeals(a) && i < |s.entries|
    ensures |Do(s, a).entries| == |s.entries|
    ensures TakenDownOnly(s.entries[i], Do(s, a).entries[i])
    ensures Do(s, a).entries[i] != s.entries[i] ==> TakeDownOf(s, a, s.entries[i].id)
  {
    if a.Decide? && TakesDown(s, a) {
      var entryId := s.appeals[FindAppeal(s.appeals, a.id).value].entryId;
      assert Do(s, a).entries == Unpublished(s, entryId).entries;
    } else {
      assert Do(s, a).entries == s.entries;
    }
  }

  /** What the actions from n on made of the entry e, the i-th of `count`. */
  ghost predicate Since(actions: seq<Action>, n: nat, count: nat, i: nat, e: Entry) {
    var entries := Run(actions).entries;
    && i < |entries| == count && TakenDownOnly(e, entries[i])
    && (entries[i] != e ==> TakenDown(actions, n, e.id))
  }

  lemma TakenDownExtends(actions: seq<Action>, n: nat, m: nat, id: string)
    requires m <= |actions| && TakenDown(actions[..m], n, id)
    ensures TakenDown(actions, n, id)
  {
    var j :| n <= j < m && TakeDownOf(Run(actions[..m][..j]), actions[..m][j], id);
    assert actions[..m][..j] == actions[..j];
  }

  lemma SinceStep(actions: seq<Action>, n: nat, count: nat, i: nat, e: Entry)
    requires n < |actions| && OfAppeals(actions[|actions| - 1]) && Since(actions[..|actions| - 1], n, count, i, e)
    ensures Since(actions, n, count, i, e)
  {
    var m := |actions| - 1;
    var s := Run(actions[..m]);
    if s.entries[i] != e { TakenDownExtends(actions, n, m, e.id); }
    AppealStep(s, actions[m], i);
  }

  /** However many appeals are filed, reviewed and decided, an entry either stays as it was, or it was public, is taken
      down once, and a decision did it that accepted an open appeal against that very entry and asked for it. */
  lemma {:induction false} AppealsOnlyTakeDown(actions: seq<Action>, n: nat, i: nat)
    requires n <= |actions| && i < |Run(actions[..n]).entries|
    requires forall m :: n <= m < |actions| ==> OfAppeals(actions[m])
    ensures Since(actions, n, |Run(actions[..n]).entries|, i, Run(actions[..n]).entries[i])
  {
    if n == |actions| {
      assert actions[..n] == actions;
    } else {
      var m := |actions| - 1;
      var count, e := |Run(actions[..n]).entries|, Run(actions[..n]).entries[i];
      assert actions[..m][..n] == actions[..n];
      AppealsOnlyTakeDown(actions[..m], n, i);
      SinceStep(actions, n, count, i, e);
    }
  }

  /** What an action's precondition check tells: whether the entry exists, and whether its status is an allowed one. */
  lemma StatusErrorMeans(s: State, id: string, allowed: set<Status>)
    requires DistinctIds(s.entries)
    ensures StatusError(s, id, allowed) == Some(NotFound) <==> forall e :: e in s.entries ==> e.id != id
    ensures StatusError(s, id, allowed) == Some(BadRequest) <==>
            exists e :: e in s.entries && e.id == id && e.status !in allowed
    ensures StatusError(s, id, allowed).None? <==> exists e :: e in s.entries && e.id == id && e.status in allowed
  {
    var i := Find(s.entries, id);
    if i.Some? {
      assert s.entries[i.value] in s.entries;
      forall e | e in s.entries && e.id == id
        ensures e == s.entries[i.value]
      {
        var j :| 0 <= j < |s.entries| && s.entries[j] == e;
      }
    }
  }

  // ---------- appeals replay too ----------

  function AppealAfter(e: AppealEvent): AppealStatus {
    match e
    case APPEAL_FILED => SUBMITTED
    case APPEAL_REVIEW_STARTED => APPEAL_UNDER_REVIEW
    case APPEAL_ACCEPTED => ACCEPTED
    case APPEAL_DECLINED => APPEAL_REJECTED
  }

  function ReplayAppeal(log: seq<Evidence>, id: string): Option<AppealStatus> {
    if log == [] then None
    else
      var e := log[|log| - 1];
      if e.OfAppeal? && e.id == id then Some(AppealAfter(e.appealEvent)) else ReplayAppeal(log[..|log| - 1], id)
  }

  ghost predicate AppealsRight(s: State) {
    && (forall i, j :: 0 <= i < j < |s.appeals| ==> s.appeals[i].id != s.appeals[j].id)
    && (forall i :: 0 <= i < |s.appeals| ==> ReplayAppeal(s.log, s.appeals[i].id) == Some(s.appeals[i].status))
  }

  lemma {:induction false} AppealLogAppend(log: seq<Evidence>, e: Evidence, id: string)
    ensures ReplayAppeal(log + [e], id) ==
            if e.OfAppeal? && e.id == id then Some(AppealAfter(e.appealEvent)) else ReplayAppeal(log, id)
  {
    assert (log + [e])[..|log|] == log;
  }

  lemma EntryEventKeepsAppeals(s: State, entries: seq<Entry>, e: Evidence)
    requires AppealsRight(s) && e.OfEntry?
    ensures AppealsRight(s.(entries := entries, log := s.log + [e]))
  {
    forall i | 0 <= i < |s.appeals|
      ensures ReplayAppeal(s.log + [e], s.appeals[i].id) == Some(s.appeals[i].status)
    {
      AppealLogAppend(s.log, e, s.appeals[i].id);
    }
  }

  lemma {:induction false} FiledKeepsAppeals(s: State, entryId: string, newId: string)
    requires AppealsRight(s) && FindAppeal(s.appeals, newId).None?
    ensures AppealsRight(s.(appeals := s.appeals + [Appeal(newId, entryId, SUBMITTED)],
            log := s.log + [OfAppeal(newId, APPEAL_FILED)]))
  {
    var appeals := s.appeals + [Appeal(newId, entryId, SUBMITTED)];
    forall i | 0 <= i < |appeals|
      ensures ReplayAppeal(s.log + [OfAppeal(newId, APPEAL_FILED)], appeals[i].id) == Some(appeals[i].status)
    {
      AppealLogAppend(s.log, OfAppeal(newId, APPEAL_FILED), appeals[i].id);
    }
  }

  lemma {:induction false} MovedKeepsAppeals(s: State, id: string, status: AppealStatus, event: AppealEvent)
    requires AppealsRight(s) && FindAppeal(s.appeals, id).Some? && AppealAfter(event) == status
    ensures AppealsRight(AppealMoved(s, id, status, event))
  {
    var t := AppealMoved(s, id, status, event);
    forall i | 0 <= i < |t.appeals|
      ensures ReplayAppeal(t.log, t.appeals[i].id) == Some(t.appeals[i].status)
    {
      AppealLogAppend(s.log, OfAppeal(id, event), t.appeals[i].id);
    }
  }

  lemma StepKeepsAppeals(s: State, a: Action)
    requires AppealsRight(s) && Fresh(s, a)
    ensures AppealsRight(Do(s, a))
  {
    if ErrorOf(s, a).None? {
      var t := Do(s, a);
      match a
      case FileAppeal(entryId, newId) => FiledKeepsAppeals(s, entryId, newId);
      case StartReview(id) => MovedKeepsAppeals(s, id, APPEAL_UNDER_REVIEW, APPEAL_REVIEW_STARTED);
      case Decide(id, accepted, _) =>
        var entryId := s.appeals[FindAppeal(s.appeals, id).value].entryId;
        var u := if TakesDown(s, a) then Unpublished(s, entryId) else s;
        if TakesDown(s, a) { EntryEventKeepsAppeals(s, u.entries, OfEntry(entryId, REGISTRY_UNPUBLISHED)); }
        MovedKeepsAppeals(u, id, if accepted then ACCEPTED else APPEAL_REJECTED,
                          if accepted then APPEAL_ACCEPTED else APPEAL_DECLINED);
      case _ =>
        assert t == s.(entries := t.entries, log := s.log + [t.log[|s.log|]]);
        EntryEventKeepsAppeals(s, t.entries, t.log[|s.log|]);
    }
  }

  /** In every run the evidence alone rebuilds each appeal's status. */
  lemma {:induction false} AppealStatusFromEvidence(actions: seq<Action>)
    requires AllFresh(actions)
    ensures AppealsRight(Run(actions))
  {
    if actions != [] {
      var n := |actions| - 1;
      AppealStatusFromEvidence(actions[..n]);
      StepKeepsAppeals(Run(actions[..n]), actions[n]);
    }
  }

  // ---------- what the actions do, entry by entry ----------

  /** What a decision makes of an entry when the appeal against `entryId` is open. */
  function Decided(e: Entry, entryId: string, accepted: bool, unpublishEntry: bool): Entry {
    if accepted && unpublishEntry && e.id == entryId && e.status == PUBLISHED then
      e.(status := APPROVED_PUBLIC_SAFE, publishedAt := None)
    else e
  }

  lemma FindAppealAt(s: State, j: nat)
    requires AppealsRight(s) && j < |s.appeals|
    ensures FindAppeal(s.appeals, s.appeals[j].id) == Some(j)
  {
  }

  /** A decision on an open appeal settles it as told, and unpublishes the entry it is against exactly when it accepts, asks
      for that and the entry is public; no other entry changes. On any other appeal it changes nothing. */
  lemma {:induction false} DecideExactly(actions: seq<Action>, j: nat, accepted: bool, unpublishEntry: bool)
    requires AllFresh(actions) && j < |Run(actions).appeals|
    ensures var s := Run(actions);
      var appeal := s.appeals[j];
      var t := Do(s, Decide(appeal.id, accepted, unpublishEntry));
      && (!Open(appeal.status) ==> t == s)
      && (Open(appeal.status) ==>
            && t.appeals == s.appeals[j := appeal.(status := if accepted then ACCEPTED else APPEAL_REJECTED)]
            && |t.entries| == |s.entries|
            && forall i :: 0 <= i < |s.entries| ==>
                 t.entries[i] == Decided(s.entries[i], appeal.entryId, accepted, unpublishEntry))
  {
    EveryRun(actions);
    AppealStatusFromEvidence(actions);
    FindAppealAt(Run(actions), j);
    if Open(Run(actions).appeals[j].status) { DecideEntries(Run(actions), j, accepted, unpublishEntry); }
  }

  lemma DecideEntries(s: State, j: nat, accepted: bool, unpublishEntry: bool)
    requires DistinctIds(s.entries) && j < |s.appeals| && FindAppeal(s.appeals, s.appeals[j].id) == Some(j)
    requires Open(s.appeals[j].status)
    ensures var appeal := s.appeals[j];
      var t := Do(s, Decide(appeal.id, accepted, unpublishEntry));
      && t.appeals == s.appeals[j := appeal.(status := if accepted then ACCEPTED else APPEAL_REJECTED)]
      && |t.entries| == |s.entries|
      && forall i :: 0 <= i < |s.entries| ==>
           t.entries[i] == Decided(s.entries[i], appeal.entryId, accepted, unpublishEntry)
  {
    var entryId := s.appeals[j].entryId;
    forall i | 0 <= i < |s.entries| && s.entries[i].id == entryId
      ensures Find(s.entries, entryId) == Some(i)
    {
      FindUnique(s.entries, i);
    }
  }

  /** What a reviewer's action makes of an entry. */
  function Reviewed(e: Entry, a: Action): Entry {
    match a
    case Approve(id, now) =>
      if e.id == id && (e.status == CANDIDATE || e.status == UNDER_REVIEW) then
        e.(status := APPROVED_PUBLIC_SAFE, approvedAt := Some(now))
      else e
    case Publish(id, now) =>
      if e.id == id && e.status == APPROVED_PUBLIC_SAFE then e.(status := PUBLISHED, publishedAt := Some(now)) else e
    case Unpublish(id) =>
      if e.id == id && e.status == PUBLISHED then e.(status := APPROVED_PUBLIC_SAFE, publishedAt := None) else e
    case Reject(id) =>
      if e.id == id && (e.status == CANDIDATE || e.status == UNDER_REVIEW || e.status == APPROVED_PUBLIC_SAFE) then
        e.(status := REJECTED)
      else e
    case _ => e
  }

  /** A reviewer's action changes the entry it names, when its status allows that, and nothing else. */
  lemma {:induction false} ReviewExactly(actions: seq<Action>, a: Action)
    requires AllFresh(actions) && (a.Approve? || a.Publish? || a.Unpublish? || a.Reject?)
    ensures var s, t := Run(actions), Do(Run(actions), a);
      && t.appeals == s.appeals && |t.entries| == |s.entries|
      && forall i :: 0 <= i < |s.entries| ==> t.entries[i] == Reviewed(s.entries[i], a)
  {
    EveryRun(actions);
    ReviewEntries(Run(actions), a);
  }

  lemma ReviewEntries(s: State, a: Action)
    requires DistinctIds(s.entries) && (a.Approve? || a.Publish? || a.Unpublish? || a.Reject?)
    ensures var t := Do(s, a);
      && t.appeals == s.appeals && |t.entries| == |s.entries|
      && forall i :: 0 <= i < |s.entries| ==> t.entries[i] == Reviewed(s.entries[i], a)
  {
    forall i | 0 <= i < |s.entries| && s.entries[i].id == a.id
      ensures Find(s.entries, a.id) == Some(i)
    {
      FindUnique(s.entries, i);
    }
  }

  /** What makes a source signal eligible: it exists, was verified, the texts are safe, and it has no entry yet. */
  ghost predicate Eligible(s: State, signal: Option<SourceSignal>, safe: bool) {
    signal.Some? && signal.value.verified && safe && forall e :: e in s.entries ==> e.sourceSignalId != signal.value.id
  }

  /** The columns of a new candidate. */
  predicate CandidateOf(e: Entry, signal: SourceSignal, newId: string, category: Option<string>, summary: string) {
    && e.id == newId && e.kind == signal.kind && e.value == signal.value && e.normalized == signal.normalized
    && e.category == (if category.Some? then category.value
                      else if signal.category.Some? then signal.category.value else "OTHER")
    && e.status == CANDIDATE && e.confidence == signal.confidence && e.summary == summary
    && e.lastSeen == signal.lastSeen && e.sourceSignalId == signal.id && e.approvedAt == None && e.publishedAt == None
  }

  /** A candidate is created exactly from an eligible signal, and is the only change to entries and appeals. */
  lemma CreateExactly(s: State, signal: Option<SourceSignal>, newId: string, category: Option<string>, summary: string,
                      safe: bool)
    ensures var t := Do(s, Create(signal, newId, category, summary, safe));
      && (!Eligible(s, signal, safe) ==> t == s)
      && (Eligible(s, signal, safe) ==>
            && t.appeals == s.appeals && |t.entries| == |s.entries| + 1 && t.entries[..|s.entries|] == s.entries
            && CandidateOf(t.entries[|s.entries|], signal.value, newId, category, summary))
  {
    assert Eligible(s, signal, safe) <==> CreateError(s, signal, safe).None?;
  }

  /** An appeal is filed exactly against a public entry. */
  lemma {:induction false} FileExactly(actions: seq<Action>, entryId: string, newId: string)
    requires AllFresh(actions)
    ensures var s, t := Run(actions), Do(Run(actions), FileAppeal(entryId, newId));
      && t.entries == s.entries
      && t.appeals == if exists e :: e in s.entries && e.id == entryId && e.status == PUBLISHED
                      then s.appeals + [Appeal(newId, entryId, SUBMITTED)] else s.appeals
  {
    EveryRun(actions);
    StatusErrorMeans(Run(actions), entryId, {PUBLISHED});
  }

  /** A review is started exactly of a submitted appeal. */
  lemma {:induction false} StartExactly(actions: seq<Action>, j: nat)
    requires AllFresh(actions) && j < |Run(actions).appeals|
    ensures var s := Run(actions);
      var appeal := s.appeals[j];
      var t := Do(s, StartReview(appeal.id));
      && t.entries == s.entries
      && t.appeals == s.appeals[j := if appeal.status == SUBMITTED then appeal.(status := APPEAL_UNDER_REVIEW) else appeal]
  {
    AppealStatusFromEvidence(actions);
    FindAppealAt(Run(actions), j);
  }
}
