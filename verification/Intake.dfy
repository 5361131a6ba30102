/** Signal intake: deduplicate, score, link to the cluster, recount the cluster, queue for review. */
module Intake {
  import opened Normalization
  import opened Wrappers
  import Clustering

  datatype Status = UNVERIFIED_REPORT | SUSPICIOUS_SIGNAL | PATTERN_MATCH

  datatype Report = Report(
    kind: IndicatorType,
    value: string,
    category: Option<string>,
    description: Option<string>,
    rawText: Option<string>,
    baseReliability: Option<int>)

  datatype Signal = Signal(
    kind: IndicatorType,
    normalized: string,
    category: Option<string>,
    description: Option<string>,
    rawText: Option<string>,
    reportCount: nat,
    confidence: int,
    status: Status,
    firstSeen: int,
    lastSeen: int,
    clusterKey: Option<string>)

  datatype Cluster = Cluster(category: Option<string>, signalCount: nat, confidence: int, firstSeen: int, lastSeen: int)

  /** An open item of the review queue names a signal by its row. */
  datatype State = State(signals: seq<Signal>, clusters: map<string, Cluster>, queue: seq<nat>)

  /** How an indicator is normalized and which cluster, if any, it belongs to. */
  datatype Rules = Rules(normalize: (IndicatorType, string) -> string,
          clusterKey: (IndicatorType, string) -> Option<string>)

  /** The rules in force. Nothing below depends on what they are, only that they are functions. */
  function SourceRules(): Rules {
    Rules((kind, value) => NormalizeIndicator(kind, value),
          (kind, normalized) =>
            var d := Clustering.DeriveClusterKey(kind, normalized);
            if d.Some? then Some(d.value.key) else None)
  }

  const EMPTY: State := State([], map[], [])

  // ---------- scoring ----------

  /** A present, non-empty text. */
  predicate Truthy(s: Option<string>) {
    s.Some? && s.value != ""
  }

  /** `Math.round((base / 100) * 30)`, halves rounded up. */
  function SourceReliability(base: int): int {
    (base * 30 + 50) / 100
  }

  function Confidence(base: int, hasDescription: bool, hasRawText: bool, reportCount: nat, hasCategory: bool): int {
    var evidence := Min(25, (if hasDescription then 8 else 3) + (if hasRawText then 6 else 0));
    var repeat := Min(15, reportCount * 3);
    Min(100, SourceReliability(base) + evidence + 10 + repeat + (if hasCategory then 8 else 0))
  }

  function DeriveStatus(reportCount: nat, confidence: int): Status {
    if reportCount >= 3 then PATTERN_MATCH
    else if confidence >= 55 then SUSPICIOUS_SIGNAL
    else UNVERIFIED_REPORT
  }

  function Base(r: Report): int {
    if r.baseReliability.Some? then r.baseReliability.value else 35
  }

  function Scored(s: Signal, base: int): Signal {
    var c := Confidence(base, Truthy(s.description), Truthy(s.rawText), s.reportCount, Truthy(s.category));
    s.(confidence := c, status := DeriveStatus(s.reportCount, c))
  }

  // ---------- storing the report ----------

  function Normal(rules: Rules, r: Report): string {
    rules.normalize(r.kind, r.value)
  }

  predicate Names(rules: Rules, s: Signal, r: Report) {
    s.kind == r.kind && s.normalized == Normal(rules, r)
  }

  /** The first signal with the report's type and normalized indicator. */
  function Find(rules: Rules, signals: seq<Signal>, r: Report): (i: Option<nat>)
    ensures i.Some? ==> i.value < |signals| && Names(rules, signals[i.value], r)
    ensures i.None? ==> forall j :: 0 <= j < |signals| ==> !Names(rules, signals[j], r)
  {
    if signals == [] then None
    else
      var i := Find(rules, signals[..|signals| - 1], r);
      if i.Some? then i else if Names(rules, signals[|signals| - 1], r) then Some(|signals| - 1) else None
  }

  function Merged(s: Signal, r: Report, now: int): Signal {
    Scored(s.(reportCount := s.reportCount + 1,
              lastSeen := now,
              category := OrElse(s.category, r.category),
              description := OrElse(s.description, r.description),
              rawText := OrElse(s.rawText, r.rawText)), Base(r))
  }

  function Created(rules: Rules, r: Report, now: int): Signal {
    Scored(Signal(r.kind, Normal(rules, r), r.category, r.description, r.rawText, 1, 0, UNVERIFIED_REPORT, now, now, None),
           Base(r))
  }

  /** The rows after the report is stored, and the row it went to. */
  function Stored(rules: Rules, signals: seq<Signal>, r: Report, now: int): (res: (seq<Signal>, nat))
    ensures res.1 < |res.0|
  {
    var i := Find(rules, signals, r);
    if i.Some? then (signals[i.value := Merged(signals[i.value], r, now)], i.value)
    else (signals + [Created(rules, r, now)], |signals|)
  }

  // ---------- clustering ----------

  function KeyOf(rules: Rules, s: Signal): Option<string> {
    rules.clusterKey(s.kind, s.normalized)
  }

  datatype Aggregate = Aggregate(count: nat, confidence: int, firstSeen: int, lastSeen: int)

  /** Count, greatest confidence, earliest first and latest last sighting of the signals in cluster k. */
  function Aggregates(signals: seq<Signal>, k: string): Option<Aggregate> {
    if signals == [] then None
    else
      var rest := Aggregates(signals[..|signals| - 1], k);
      var s := signals[|signals| - 1];
      if s.clusterKey != Some(k) then rest
      else if rest.None? then Some(Aggregate(1, s.confidence, s.firstSeen, s.lastSeen))
      else
        var a := rest.value;
        Some(Aggregate(a.count + 1, Max(a.confidence, s.confidence), Min(a.firstSeen, s.firstSeen),
          Max(a.lastSeen, s.lastSeen)))
  }

  /** `recount`: overwrite the cached aggregates. */
  function Recounted(c: Cluster, signals: seq<Signal>, k: string): Cluster {
    var a := Aggregates(signals, k);
    if a.None? then c.(signalCount := 0, confidence := 0)
    else Cluster(c.category, a.value.count, a.value.confidence, a.value.firstSeen, a.value.lastSeen)
  }

  function Clustered(rules: Rules, signals: seq<Signal>, clusters: map<string, Cluster>, i: nat,
          now: int): (seq<Signal>, map<string, Cluster>)
    requires i < |signals|
  {
    var k := KeyOf(rules, signals[i]);
    if k.None? then (signals, clusters)
    else
      var cluster := if k.value in clusters then clusters[k.value] else Cluster(signals[i].category, 0, 0, now, now);
      var linked := signals[i := signals[i].(clusterKey := k)];
      (linked, clusters[k.value := Recounted(cluster, linked, k.value)])
  }

  predicate HighRisk(s: Signal) {
    s.status == SUSPICIOUS_SIGNAL || s.status == PATTERN_MATCH
  }

  /** One whole intake. */
  function Taken(rules: Rules, st: State, r: Report, now: int): State {
    var (signals, i) := Stored(rules, st.signals, r, now);
    var (linked, clusters) := Clustered(rules, signals, st.clusters, i, now);
    State(linked, clusters, if HighRisk(signals[i]) && i !in st.queue then st.queue + [i] else st.queue)
  }

  class ScamSignalsService {
    const rules: Rules
    var signals: seq<Signal>
    var clusters: map<string, Cluster>
    var queue: seq<nat>

    ghost function View(): State
      reads this
    {
      State(signals, clusters, queue)
    }

    constructor (rules: Rules)
      ensures this.rules == rules && View() == EMPTY
    {
      this.rules := rules;
      signals, clusters, queue := [], map[], [];
    }

    method Intake(r: Report, now: int) returns (i: nat)
      modifies this
      ensures View() == Taken(rules, old(View()), r, now)
    {
      var existing := Find(rules, signals, r);
      if existing.Some? {
        i := existing.value;
        var s := signals[i];
        var category := OrElse(s.category, r.category);
        var description := OrElse(s.description, r.description);
        var rawText := OrElse(s.rawText, r.rawText);
        s := s.(reportCount := s.reportCount + 1, lastSeen := now, category := category, description := description,
          rawText := rawText);
        signals := signals[i := Scored(s, Base(r))];
      } else {
        i := |signals|;
        signals := signals + [Created(rules, r, now)];
      }
      assert (signals, i) == Stored(rules, old(signals), r, now);
      var highRisk := HighRisk(signals[i]);
      ClusterSignal(i, now);
      if highRisk && i !in queue {
        queue := queue + [i];
      }
    }

    method ClusterSignal(i: nat, now: int)
      requires i < |signals|
      modifies this`signals, this`clusters
      ensures (signals, clusters) == Clustered(rules, old(signals), old(clusters), i, now)
    {
      var k := KeyOf(rules, signals[i]);
      if k.None? { return; }
      if k.value !in clusters {
        clusters := clusters[k.value := Cluster(signals[i].category, 0, 0, now, now)];
      }
      var alreadyLinked := signals[i].clusterKey == k;
      if !alreadyLinked {
        signals := signals[i := signals[i].(clusterKey := k)];
      }
      assert signals == old(signals)[i := old(signals)[i].(clusterKey := k)];
      ghost var cluster := clusters[k.value];
      Recount(k.value);
      assert clusters == old(clusters)[k.value := Recounted(cluster, signals, k.value)];
    }

    method Recount(k: string)
      requires k in clusters
      modifies this`clusters
      ensures clusters == old(clusters)[k := Recounted(old(clusters)[k], signals, k)]
    {
      clusters := clusters[k := Recounted(clusters[k], signals, k)];
    }
  }

  // ---------- what every run keeps ----------

  datatype Event = Event(report: Report, now: int)

  function Run(rules: Rules, events: seq<Event>): State {
    if events == [] then EMPTY
    else
      var e := events[|events| - 1];
      Taken(rules, Run(rules, events[..|events| - 1]), e.report, e.now)
  }

  function Reports(signals: seq<Signal>): nat {
    if signals == [] then 0 else Reports(signals[..|signals| - 1]) + signals[|signals| - 1].reportCount
  }

  ghost predicate OneSignalPerIndicator(signals: seq<Signal>) {
    forall i, j :: 0 <= i < j < |signals| ==>
      signals[i].kind != signals[j].kind || signals[i].normalized != signals[j].normalized
  }

  ghost predicate LinkedByKey(rules: Rules, signals: seq<Signal>) {
    forall i :: 0 <= i < |signals| ==> signals[i].clusterKey == KeyOf(rules, signals[i])
  }

  /** Exactly the clusters with members exist. */
  ghost predicate Cached(st: State) {
    forall k :: k in st.clusters <==> Aggregates(st.signals, k).Some?
  }

  /** The cached columns of every cluster are what a recount would give. */
  ghost predicate CachedRight(st: State) {
    forall k :: k in st.clusters && Aggregates(st.signals, k).Some? ==>
      var c := st.clusters[k];
      Aggregates(st.signals, k) == Some(Aggregate(c.signalCount, c.confidence, c.firstSeen, c.lastSeen))
  }

  ghost predicate Queued(st: State) {
    && (forall i, j :: 0 <= i < j < |st.queue| ==> st.queue[i] != st.queue[j])
    && (forall i :: 0 <= i < |st.signals| && HighRisk(st.signals[i]) ==> i in st.queue)
    && (forall i :: i in st.queue ==> i < |st.signals|)
  }

  ghost predicate Inv(rules: Rules, st: State) {
    OneSignalPerIndicator(st.signals) && LinkedByKey(rules, st.signals) && Cached(st) && CachedRight(st) && Queued(st)
  }

  lemma {:induction false} ReportsUpdate(signals: seq<Signal>, i: nat, s: Signal)
    requires i < |signals|
    ensures Reports(signals[i := s]) == Reports(signals) - signals[i].reportCount + s.reportCount
  {
    var n := |signals| - 1;
    if i < n {
      ReportsUpdate(signals[..n], i, s);
      assert signals[i := s][..n] == signals[..n][i := s];
    } else {
      assert signals[i := s][..n] == signals[..n];
    }
  }

  /** A row outside cluster k, before and after, does not count in k. */
  lemma {:induction false} AggregatesUpdate(signals: seq<Signal>, i: nat, s: Signal, k: string)
    requires i < |signals| && signals[i].clusterKey != Some(k) && s.clusterKey != Some(k)
    ensures Aggregates(signals[i := s], k) == Aggregates(signals, k)
  {
    var n := |signals| - 1;
    if i < n {
      AggregatesUpdate(signals[..n], i, s, k);
      assert signals[i := s][..n] == signals[..n][i := s];
    } else {
      assert signals[i := s][..n] == signals[..n];
    }
  }

  /** A member makes the aggregate exist. */
  lemma {:induction false} MemberCounts(signals: seq<Signal>, i: nat, k: string)
    requires i < |signals| && signals[i].clusterKey == Some(k)
    ensures Aggregates(signals, k).Some?
  {
    var n := |signals| - 1;
    if i < n { MemberCounts(signals[..n], i, k); }
  }

  /** The immutable part of a row decides its key. */
  lemma StoredRow(rules: Rules, signals: seq<Signal>, r: Report, now: int)
    requires OneSignalPerIndicator(signals) && LinkedByKey(rules, signals)
    ensures var (stored, i) := Stored(rules, signals, r, now);
      && OneSignalPerIndicator(stored)
      && (forall j :: 0 <= j < |stored| && j != i ==> j < |signals| && stored[j] == signals[j])
      && Names(rules, stored[i], r)
      && (i < |signals| ==>
            |stored| == |signals| && stored[i].clusterKey == signals[i].clusterKey == KeyOf(rules, stored[i]))
      && (i >= |signals| ==> i == |signals| && |stored| == i + 1 && stored[i].clusterKey == None && stored[..i] == signals)
  {
  }

  lemma {:induction false} ClusteredKeeps(rules: Rules, st: State, stored: seq<Signal>, i: nat, now: int)
    requires Cached(st) && CachedRight(st) && i < |stored|
    requires forall k :: KeyOf(rules, stored[i]) != Some(k) ==> Aggregates(stored, k) == Aggregates(st.signals, k)
    requires KeyOf(rules, stored[i]) == None ==> stored[i].clusterKey == None
    requires stored[i].clusterKey == None || stored[i].clusterKey == KeyOf(rules, stored[i])
    ensures var (linked, clusters) := Clustered(rules, stored, st.clusters, i, now);
      Cached(State(linked, clusters, st.queue)) && CachedRight(State(linked, clusters, st.queue))
  {
    var key := KeyOf(rules, stored[i]);
    var (linked, clusters) := Clustered(rules, stored, st.clusters, i, now);
    forall k
      ensures k in clusters <==> Aggregates(linked, k).Some?
      ensures k in clusters && Aggregates(linked, k).Some? ==>
        Aggregates(linked, k) ==
          Some(Aggregate(clusters[k].signalCount, clusters[k].confidence, clusters[k].firstSeen, clusters[k].lastSeen))
    {
      if key == Some(k) {
        MemberCounts(linked, i, k);
      } else if key.Some? {
        AggregatesUpdate(stored, i, linked[i], k);
      }
    }
  }

  lemma {:induction false} StoredAggregates(rules: Rules, signals: seq<Signal>, r: Report, now: int, k: string)
    requires OneSignalPerIndicator(signals) && LinkedByKey(rules, signals)
    requires KeyOf(rules, Stored(rules, signals, r, now).0[Stored(rules, signals, r, now).1]) != Some(k)
    ensures Aggregates(Stored(rules, signals, r, now).0, k) == Aggregates(signals, k)
  {
    StoredRow(rules, signals, r, now);
    var (stored, i) := Stored(rules, signals, r, now);
    if i < |signals| {
      AggregatesUpdate(signals, i, stored[i], k);
    }
  }

  /** Linking a row touches neither its indicator nor the other rows. */
  lemma LinkedRows(rules: Rules, signals: seq<Signal>, stored: seq<Signal>, i: nat)
    requires LinkedByKey(rules, signals) && OneSignalPerIndicator(stored) && i < |stored|
    requires forall j :: 0 <= j < |stored| && j != i ==> j < |signals| && stored[j] == signals[j]
    requires stored[i].clusterKey == None || stored[i].clusterKey == KeyOf(rules, stored[i])
    ensures var linked := Clustered(rules, stored, map[], i, 0).0;
      && |linked| == |stored|
      && (forall j :: 0 <= j < |stored| ==> linked[j] == stored[j].(clusterKey := linked[j].clusterKey))
      && OneSignalPerIndicator(linked) && LinkedByKey(rules, linked)
      && linked == stored[i := linked[i]]
  {
  }

  lemma StepKeepsQueue(st: State, stored: seq<Signal>, linked: seq<Signal>, i: nat, after: State)
    requires Queued(st) && i < |stored| && |linked| == |stored| && |stored| >= |st.signals|
    requires forall j :: 0 <= j < |stored| && j != i ==> j < |st.signals| && stored[j] == st.signals[j]
    requires forall j :: 0 <= j < |stored| ==> linked[j].status == stored[j].status
    requires after.signals == linked
    requires after.queue == if HighRisk(stored[i]) && i !in st.queue then st.queue + [i] else st.queue
    ensures Queued(after)
  {
  }

  lemma StepKeepsInv(rules: Rules, st: State, r: Report, now: int)
    requires Inv(rules, st)
    ensures Inv(rules, Taken(rules, st, r, now))
    ensures Reports(Taken(rules, st, r, now).signals) == Reports(st.signals) + 1
  {
    var (stored, i) := Stored(rules, st.signals, r, now);
    StoredRow(rules, st.signals, r, now);
    LinkedRows(rules, st.signals, stored, i);
    var linked := Clustered(rules, stored, st.clusters, i, now).0;
    assert linked == Clustered(rules, stored, map[], i, 0).0;
    StepKeepsClusters(rules, st, r, now);
    StepKeepsQueue(st, stored, linked, i, Taken(rules, st, r, now));
    StoredReports(rules, st.signals, r, now);
    ReportsUpdate(stored, i, linked[i]);
  }

  lemma StepKeepsClusters(rules: Rules, st: State, r: Report, now: int)
    requires OneSignalPerIndicator(st.signals) && LinkedByKey(rules, st.signals) && Cached(st) && CachedRight(st)
    ensures Cached(Taken(rules, st, r, now)) && CachedRight(Taken(rules, st, r, now))
  {
    var (stored, i) := Stored(rules, st.signals, r, now);
    StoredRow(rules, st.signals, r, now);
    forall k | KeyOf(rules, stored[i]) != Some(k)
      ensures Aggregates(stored, k) == Aggregates(st.signals, k)
    {
      StoredAggregates(rules, st.signals, r, now, k);
    }
    ClusteredKeeps(rules, st, stored, i, now);
  }

  lemma {:induction false} StoredReports(rules: Rules, signals: seq<Signal>, r: Report, now: int)
    ensures Reports(Stored(rules, signals, r, now).0) == Reports(signals) + 1
  {
    var i := Find(rules, signals, r);
    if i.Some? {
      ReportsUpdate(signals, i.value, Merged(signals[i.value], r, now));
    } else {
      assert (signals + [Created(rules, r, now)])[..|signals|] == signals;
    }
  }

  /** After any run of intakes: one signal per indicator, no report lost, every signal in the cluster its key names,
      every cached aggregate equal to its recomputation, every high-risk signal queued once. */
  lemma {:induction false} EveryRun(rules: Rules, events: seq<Event>)
    ensures Inv(rules, Run(rules, events)) && Reports(Run(rules, events).signals) == |events|
  {
    if events != [] {
      var n := |events| - 1;
      EveryRun(rules, events[..n]);
      StepKeepsInv(rules, Run(rules, events[..n]), events[n].report, events[n].now);
    }
  }

  /** With the rules in force, in every run: a signal is in a cluster exactly when its indicator has a domain root or an
      email domain to share, and two signals are in the same cluster exactly when they share it. */
  lemma {:induction false} SameClusterIffShared(events: seq<Event>, i: nat, j: nat)
    requires var signals := Run(SourceRules(), events).signals; i < |signals| && j < |signals|
    ensures var signals := Run(SourceRules(), events).signals;
      var s, t := signals[i], signals[j];
      && (s.clusterKey.Some? <==> Clustering.Shared(s.kind, s.normalized).Some?)
      && (s.clusterKey.Some? && t.clusterKey.Some? ==>
            (s.clusterKey == t.clusterKey <==>
              Clustering.Shared(s.kind, s.normalized) == Clustering.Shared(t.kind, t.normalized)))
  {
    EveryRun(SourceRules(), events);
    var signals := Run(SourceRules(), events).signals;
    var s, t := signals[i], signals[j];
    Clustering.KeyIffShared(s.kind, s.normalized);
    if s.clusterKey.Some? && t.clusterKey.Some? {
      Clustering.KeyIdentifiesShared(s.kind, s.normalized, t.kind, t.normalized);
    }
  }

  /** How many of the intakes reported the indicator. */
  function Reported(rules: Rules, events: seq<Event>, kind: IndicatorType, normalized: string): nat {
    if events == [] then 0
    else
      var r := events[|events| - 1].report;
      Reported(rules, events[..|events| - 1], kind, normalized) +
      (if r.kind == kind && Normal(rules, r) == normalized then 1 else 0)
  }

  lemma {:induction false} NeverReported(rules: Rules, events: seq<Event>, kind: IndicatorType, normalized: string)
    requires forall e :: e in events ==> e.report.kind != kind || Normal(rules, e.report) != normalized
    ensures Reported(rules, events, kind, normalized) == 0
  {
    if events != [] { NeverReported(rules, events[..|events| - 1], kind, normalized); }
  }

  /** Every reported indicator has its signal, and the signal counts exactly the intakes that reported it. */
  ghost predicate CountsRight(rules: Rules, events: seq<Event>, signals: seq<Signal>) {
    && (forall i :: 0 <= i < |signals| ==>
          signals[i].reportCount == Reported(rules, events, signals[i].kind, signals[i].normalized))
    && (forall e :: e in events ==> exists i :: 0 <= i < |signals| && Names(rules, signals[i], e.report))
  }

  lemma {:induction false} ReportCountExact(rules: Rules, events: seq<Event>)
    ensures CountsRight(rules, events, Run(rules, events).signals)
  {
    if events != [] {
      var n := |events| - 1;
      var st, e := Run(rules, events[..n]), events[n];
      ReportCountExact(rules, events[..n]);
      EveryRun(rules, events[..n]);
      StoredCounts(rules, events, st.signals);
      var (stored, i) := Stored(rules, st.signals, e.report, e.now);
      StoredRow(rules, st.signals, e.report, e.now);
      LinkedRows(rules, st.signals, stored, i);
      var linked := Clustered(rules, stored, st.clusters, i, e.now).0;
      assert linked == Clustered(rules, stored, map[], i, 0).0;
      LinkedCounts(rules, events, stored, linked);
    }
  }

  lemma LinkedCounts(rules: Rules, events: seq<Event>, stored: seq<Signal>, linked: seq<Signal>)
    requires CountsRight(rules, events, stored) && |linked| == |stored|
    requires forall j :: 0 <= j < |stored| ==> linked[j] == stored[j].(clusterKey := linked[j].clusterKey)
    ensures CountsRight(rules, events, linked)
  {
    forall e | e in events
      ensures exists i :: 0 <= i < |linked| && Names(rules, linked[i], e.report)
    {
      var i :| 0 <= i < |stored| && Names(rules, stored[i], e.report);
      assert Names(rules, linked[i], e.report);
    }
  }

  lemma StoredCounts(rules: Rules, events: seq<Event>, signals: seq<Signal>)
    requires events != [] && OneSignalPerIndicator(signals) && LinkedByKey(rules, signals)
    requires CountsRight(rules, events[..|events| - 1], signals)
    ensures var e := events[|events| - 1];
      CountsRight(rules, events, Stored(rules, signals, e.report, e.now).0)
  {
    var before, e := events[..|events| - 1], events[|events| - 1];
    var r := e.report;
    var (stored, i) := Stored(rules, signals, r, e.now);
    StoredRow(rules, signals, r, e.now);
    if Find(rules, signals, r).None? {
      NeverReported(rules, before, r.kind, Normal(rules, r));
    }
    assert events == before + [e];
    forall f | f in events
      ensures exists j :: 0 <= j < |stored| && Names(rules, stored[j], f.report)
    {
      if f in before {
        var j :| 0 <= j < |signals| && Names(rules, signals[j], f.report);
        assert Names(rules, stored[j], f.report);
      } else {
        assert Names(rules, stored[i], f.report);
      }
    }
  }

  // ---------- what a signal says, from the intakes alone ----------

  predicate Of(rules: Rules, e: Event, kind: IndicatorType, normalized: string) {
    e.report.kind == kind && Normal(rules, e.report) == normalized
  }

  /** The intakes that reported the indicator, in order. */
  function History(rules: Rules, events: seq<Event>, kind: IndicatorType, normalized: string): (h: seq<Event>)
    ensures forall e :: e in h ==> e in events && Of(rules, e, kind, normalized)
  {
    if events == [] then []
    else
      var e := events[|events| - 1];
      History(rules, events[..|events| - 1], kind, normalized) + (if Of(rules, e, kind, normalized) then [e] else [])
  }

  /** The first text that was given. */
  function FirstGiven(h: seq<Event>, column: Report -> Option<string>): Option<string> {
    if h == [] then None else if column(h[0].report).Some? then column(h[0].report) else FirstGiven(h[1..], column)
  }

  lemma {:induction false} FirstGivenNext(h: seq<Event>, e: Event, column: Report -> Option<string>)
    ensures FirstGiven(h + [e], column) == OrElse(FirstGiven(h, column), column(e.report))
  {
    if h == [] {
      assert FirstGiven([e][1..], column) == None;
    } else {
      assert (h + [e])[1..] == h[1..] + [e];
      FirstGivenNext(h[1..], e, column);
    }
  }

  function CategoryOf(h: seq<Event>): Option<string> {
    FirstGiven(h, (r: Report) => r.category)
  }

  function DescriptionOf(h: seq<Event>): Option<string> {
    FirstGiven(h, (r: Report) => r.description)
  }

  function RawTextOf(h: seq<Event>): Option<string> {
    FirstGiven(h, (r: Report) => r.rawText)
  }

  /** The score after the last intake of the history. */
  function ScoreOf(h: seq<Event>): int
    requires h != []
  {
    Confidence(Base(h[|h| - 1].report), Truthy(DescriptionOf(h)), Truthy(RawTextOf(h)), |h|, Truthy(CategoryOf(h)))
  }

  /** The signal is high-risk after the last intake of the history. */
  predicate Risky(h: seq<Event>)
    requires h != []
  {
    |h| >= 3 || ScoreOf(h) >= 55
  }

  /** The columns of a signal that has this history. */
  predicate Tells(s: Signal, h: seq<Event>) {
    && h != [] && s.reportCount == |h|
    && s.firstSeen == h[0].now && s.lastSeen == h[|h| - 1].now
    && s.category == CategoryOf(h) && s.description == DescriptionOf(h) && s.rawText == RawTextOf(h)
    && s.confidence == ScoreOf(h)
    && s.status == (if |h| >= 3 then PATTERN_MATCH else if Risky(h) then SUSPICIOUS_SIGNAL else UNVERIFIED_REPORT)
  }

  /** The signal was high-risk right after one of the intakes. */
  ghost predicate WasRisky(h: seq<Event>) {
    exists n: nat :: 0 < n <= |h| && Risky(h[..n])
  }

  lemma WasRiskyNext(h: seq<Event>, e: Event)
    ensures WasRisky(h + [e]) <==> WasRisky(h) || Risky(h + [e])
  {
    var g := h + [e];
    assert g[..|g|] == g;
    forall n: nat | n <= |h|
      ensures g[..n] == h[..n]
    {
    }
  }

  lemma MergedTells(s: Signal, h: seq<Event>, e: Event)
    requires Tells(s, h)
    ensures Tells(Merged(s, e.report, e.now), h + [e])
  {
    FirstGivenNext(h, e, (r: Report) => r.category);
    FirstGivenNext(h, e, (r: Report) => r.description);
    FirstGivenNext(h, e, (r: Report) => r.rawText);
  }

  lemma CreatedTells(rules: Rules, e: Event)
    ensures Tells(Created(rules, e.report, e.now), [e])
  {
    assert [] + [e] == [e];
    FirstGivenNext([], e, (r: Report) => r.category);
    FirstGivenNext([], e, (r: Report) => r.description);
    FirstGivenNext([], e, (r: Report) => r.rawText);
  }

  ghost predicate TellsAt(rules: Rules, events: seq<Event>, signals: seq<Signal>, i: nat)
    requires i < |signals|
  {
    Tells(signals[i], History(rules, events, signals[i].kind, signals[i].normalized))
  }

  ghost predicate Queues(rules: Rules, events: seq<Event>, s: Signal, queued: bool) {
    queued <==> WasRisky(History(rules, events, s.kind, s.normalized))
  }

  ghost predicate HistoryRight(rules: Rules, events: seq<Event>, st: State) {
    forall i: nat :: i < |st.signals| ==> RightAt(rules, events, st, i)
  }

  ghost predicate RightAt(rules: Rules, events: seq<Event>, st: State, i: nat)
    requires i < |st.signals|
  {
    TellsAt(rules, events, st.signals, i) && Queues(rules, events, st.signals[i], i in st.queue)
  }

  lemma {:induction false} NoHistory(rules: Rules, events: seq<Event>, r: Report)
    requires forall e :: e in events ==> !Of(rules, e, r.kind, Normal(rules, r))
    ensures History(rules, events, r.kind, Normal(rules, r)) == []
  {
    if events != [] { NoHistory(rules, events[..|events| - 1], r); }
  }

  lemma {:induction false} HistoryNext(rules: Rules, events: seq<Event>, e: Event, kind: IndicatorType, normalized: string)
    ensures History(rules, events + [e], kind, normalized) ==
            History(rules, events, kind, normalized) + (if Of(rules, e, kind, normalized) then [e] else [])
  {
    assert (events + [e])[..|events|] == events;
  }

  /** A row with another indicator keeps its history. */
  lemma {:induction false} OtherRow(rules: Rules, events: seq<Event>, e: Event, s: Signal)
    requires !Names(rules, s, e.report)
    ensures History(rules, events + [e], s.kind, s.normalized) == History(rules, events, s.kind, s.normalized)
  {
    HistoryNext(rules, events, e, s.kind, s.normalized);
  }

  /** The row that takes the report tells the longer history. */
  lemma {:induction false} TakenRow(rules: Rules, events: seq<Event>, st: State, e: Event)
    requires HistoryRight(rules, events, st) && CountsRight(rules, events, st.signals)
    ensures var (stored, i) := Stored(rules, st.signals, e.report, e.now);
      var h := History(rules, events, stored[i].kind, stored[i].normalized);
      && Tells(stored[i], h + [e]) && History(rules, events + [e], stored[i].kind, stored[i].normalized) == h + [e]
      && (i < |st.signals| ==> Queues(rules, events, stored[i], i in st.queue))
      && (i == |st.signals| ==> h == [])
  {
    var r := e.report;
    var (stored, i) := Stored(rules, st.signals, r, e.now);
    HistoryNext(rules, events, e, r.kind, Normal(rules, r));
    if Find(rules, st.signals, r).Some? {
      assert RightAt(rules, events, st, i);
      MergedTells(st.signals[i], History(rules, events, r.kind, Normal(rules, r)), e);
    } else {
      NoHistory(rules, events, r);
      CreatedTells(rules, e);
      assert [] + [e] == [e];
    }
  }

  lemma TakenHistory(rules: Rules, events: seq<Event>, all: seq<Event>, st: State, e: Event, t: State)
    requires Known(rules, events, st) && HistoryRight(rules, events, st)
    requires all == events + [e] && t == Taken(rules, st, e.report, e.now)
    ensures HistoryRight(rules, all, t)
  {
    var (stored, i) := Stored(rules, st.signals, e.report, e.now);
    TakenRows(rules, st, e);
    TakenRow(rules, events, st, e);
    TakenRowQueues(rules, events, st, e);
    forall j: nat | j < |t.signals|
      ensures RightAt(rules, all, t, j)
    {
      if j != i {
        OtherRow(rules, events, e, stored[j]);
        assert RightAt(rules, events, st, j);
      }
    }
  }

  /** All rows but the one that takes the report stay as they were; linking that one changes its cluster only. */
  lemma TakenRows(rules: Rules, st: State, e: Event)
    requires Inv(rules, st)
    ensures var t := Taken(rules, st, e.report, e.now);
      var (stored, i) := Stored(rules, st.signals, e.report, e.now);
      && |t.signals| == |stored|
      && (forall j :: 0 <= j < |stored| ==> t.signals[j] == stored[j].(clusterKey := t.signals[j].clusterKey))
      && (forall j :: 0 <= j < |stored| && j != i ==>
            j < |st.signals| && stored[j] == st.signals[j] && !Names(rules, stored[j], e.report))
      && (forall j: nat :: j != i ==> (j in t.queue <==> j in st.queue))
  {
    var (stored, i) := Stored(rules, st.signals, e.report, e.now);
    StoredRow(rules, st.signals, e.report, e.now);
    LinkedRows(rules, st.signals, stored, i);
    assert Taken(rules, st, e.report, e.now).signals == Clustered(rules, stored, map[], i, 0).0;
  }

  lemma TakenRowQueues(rules: Rules, events: seq<Event>, st: State, e: Event)
    requires Queued(st) && HistoryRight(rules, events, st) && CountsRight(rules, events, st.signals)
    ensures var (stored, i) := Stored(rules, st.signals, e.report, e.now);
      Queues(rules, events + [e], stored[i], i in Taken(rules, st, e.report, e.now).queue)
  {
    var (stored, i) := Stored(rules, st.signals, e.report, e.now);
    TakenRow(rules, events, st, e);
    TakenQueue(rules, st, e);
    WasRiskyNext(History(rules, events, stored[i].kind, stored[i].normalized), e);
  }

  lemma TakenQueue(rules: Rules, st: State, e: Event)
    requires Queued(st)
    ensures var (stored, i) := Stored(rules, st.signals, e.report, e.now);
      && (i in Taken(rules, st, e.report, e.now).queue <==> i in st.queue || HighRisk(stored[i]))
      && (i == |st.signals| ==> i !in st.queue)
  {
  }

  /** In every run each signal is what the intakes of its indicator make it: first and last seen at the first and the last
      of them, with the first category, description and text that were given and the score after the last; and the queue
      holds exactly the signals that were high-risk right after one of them. */
  lemma {:induction false} SignalsFromHistory(rules: Rules, events: seq<Event>)
    ensures HistoryRight(rules, events, Run(rules, events))
  {
    if events != [] {
      SignalsFromHistory(rules, events[..|events| - 1]);
      HistoryStep(rules, events);
    }
  }

  lemma {:induction false} HistoryStep(rules: Rules, events: seq<Event>)
    requires events != [] && HistoryRight(rules, events[..|events| - 1], Run(rules, events[..|events| - 1]))
    ensures HistoryRight(rules, events, Run(rules, events))
  {
    var before, e := events[..|events| - 1], events[|events| - 1];
    KnownAfter(rules, before);
    assert events == before + [e];
    assert Run(rules, events) == Taken(rules, Run(rules, before), e.report, e.now);
    TakenHistory(rules, before, events, Run(rules, before), e, Run(rules, events));
  }

  lemma {:induction false} KnownAfter(rules: Rules, events: seq<Event>)
    ensures Known(rules, events, Run(rules, events))
  {
    ReportCountExact(rules, events);
    EveryRun(rules, events);
  }

  ghost predicate Known(rules: Rules, events: seq<Event>, st: State) {
    Inv(rules, st) && CountsRight(rules, events, st.signals)
  }

  /** The first intake whose indicator belongs to cluster k. */
  function FirstFor(rules: Rules, events: seq<Event>, k: string): Option<Event> {
    if events == [] then None
    else
      var n := |events| - 1;
      var before := FirstFor(rules, events[..n], k);
      var r := events[n].report;
      if before.Some? then before
      else if rules.clusterKey(r.kind, Normal(rules, r)) == Some(k) then Some(events[n])
      else None
  }

  ghost predicate ClustersRight(rules: Rules, events: seq<Event>, clusters: map<string, Cluster>) {
    forall k :: ClusterRight(rules, events, clusters, k)
  }

  ghost predicate ClusterRight(rules: Rules, events: seq<Event>, clusters: map<string, Cluster>, k: string) {
    var first := FirstFor(rules, events, k);
    && (k in clusters <==> first.Some?)
    && (k in clusters && first.Some? ==> clusters[k].category == first.value.report.category)
  }

  /** In every run the clusters are those of the indicators reported, each with the category of its first intake. */
  lemma {:induction false} ClustersFromHistory(rules: Rules, events: seq<Event>)
    ensures ClustersRight(rules, events, Run(rules, events).clusters)
  {
    if events != [] {
      var n := |events| - 1;
      ClustersFromHistory(rules, events[..n]);
      EveryRun(rules, events[..n]);
      TakenClusters(rules, events, Run(rules, events[..n]));
    }
  }

  lemma TakenClusters(rules: Rules, events: seq<Event>, st: State)
    requires events != [] && Inv(rules, st) && ClustersRight(rules, events[..|events| - 1], st.clusters)
    ensures var e := events[|events| - 1];
      ClustersRight(rules, events, Taken(rules, st, e.report, e.now).clusters)
  {
    var n := |events| - 1;
    var e := events[n];
    var (stored, i) := Stored(rules, st.signals, e.report, e.now);
    StoredRow(rules, st.signals, e.report, e.now);
    var key := KeyOf(rules, stored[i]);
    if key.Some? && key.value !in st.clusters && i < |st.signals| {
      MemberCounts(st.signals, i, key.value);
    }
    var clusters := Taken(rules, st, e.report, e.now).clusters;
    forall k
      ensures ClusterRight(rules, events, clusters, k)
    {
      assert ClusterRight(rules, events[..n], st.clusters, k);
    }
  }

  /** The rows linked to cluster k. */
  ghost function Members(signals: seq<Signal>, k: string): (m: set<nat>)
    ensures forall i: nat :: i in m <==> i < |signals| && signals[i].clusterKey == Some(k)
  {
    set i: nat | i < |signals| && signals[i].clusterKey == Some(k)
  }

  /** The number of members, and bounds that some member attains. */
  ghost predicate Describes(a: Aggregate, signals: seq<Signal>, m: set<nat>) {
    && a.count == |m|
    && (forall i :: i in m ==> i < |signals|)
    && (forall i :: i in m ==> signals[i].confidence <= a.confidence)
    && (forall i :: i in m ==> a.firstSeen <= signals[i].firstSeen)
    && (forall i :: i in m ==> signals[i].lastSeen <= a.lastSeen)
    && (exists i :: i in m && signals[i].confidence == a.confidence)
    && (exists i :: i in m && signals[i].firstSeen == a.firstSeen)
    && (exists i :: i in m && signals[i].lastSeen == a.lastSeen)
  }

  /** The cached columns of a cluster are the count, maximum, minimum and maximum over its members. */
  lemma {:induction false} AggregatesMean(signals: seq<Signal>, k: string)
    ensures Aggregates(signals, k).Some? <==> Members(signals, k) != {}
    ensures Aggregates(signals, k).Some? ==> Describes(Aggregates(signals, k).value, signals, Members(signals, k))
  {
    if signals == [] {
      assert Members(signals, k) == {};
    } else {
      var n := |signals| - 1;
      AggregatesMean(signals[..n], k);
      var m := Members(signals[..n], k);
      MembersNext(signals, k);
      if signals[n].clusterKey == Some(k) {
        if Aggregates(signals[..n], k).Some? {
          JoinDescribes(Aggregates(signals[..n], k).value, signals, n, m);
        } else {
          SingleDescribes(signals, n);
        }
      } else {
        if m != {} { SameDescribes(Aggregates(signals[..n], k).value, signals, n, m); }
      }
    }
  }

  lemma MembersNext(signals: seq<Signal>, k: string)
    requires signals != []
    ensures var n := |signals| - 1;
      Members(signals, k) == Members(signals[..n], k) + (if signals[n].clusterKey == Some(k) then {n} else {})
  {
  }

  lemma SingleDescribes(signals: seq<Signal>, n: nat)
    requires n < |signals|
    ensures var s := signals[n];
      Describes(Aggregate(1, s.confidence, s.firstSeen, s.lastSeen), signals, {} + {n})
  {
    var m: set<nat> := {} + {n};
    assert m == {n} && n in m;
  }

  lemma SameDescribes(a: Aggregate, signals: seq<Signal>, n: nat, m: set<nat>)
    requires n <= |signals| && Describes(a, signals[..n], m)
    ensures Describes(a, signals, m)
  {
    var i :| i in m && signals[..n][i].confidence == a.confidence;
    var j :| j in m && signals[..n][j].firstSeen == a.firstSeen;
    var l :| l in m && signals[..n][l].lastSeen == a.lastSeen;
    assert signals[i].confidence == a.confidence && signals[j].firstSeen == a.firstSeen && signals[l].lastSeen == a.lastSeen;
  }

  lemma JoinDescribes(a: Aggregate, signals: seq<Signal>, n: nat, m: set<nat>)
    requires n < |signals| && Describes(a, signals[..n], m)
    ensures var s := signals[n];
      Describes(Aggregate(a.count + 1, Max(a.confidence, s.confidence), Min(a.firstSeen, s.firstSeen),
        Max(a.lastSeen, s.lastSeen)),
                signals, m + {n})
  {
    SameDescribes(a, signals, n, m);
    var s, all := signals[n], m + {n};
    assert n !in m && n in all;
    var i :| i in m && signals[i].confidence == a.confidence;
    var j :| j in m && signals[j].firstSeen == a.firstSeen;
    var l :| l in m && signals[l].lastSeen == a.lastSeen;
    assert i in all && j in all && l in all;
  }

  lemma ConfidenceBound(base: int, hasDescription: bool, hasRawText: bool, reportCount: nat, hasCategory: bool)
    requires 0 <= base <= 100 && 1 <= reportCount
    ensures 16 <= Confidence(base, hasDescription, hasRawText, reportCount, hasCategory) <= 77
    ensures Confidence(0, false, false, 1, false) == 16 && Confidence(100, true, true, 5, true) == 77
  {
    assert 0 <= SourceReliability(base) <= 30;
  }

  /** More reliability, more reports and more fields never lower the score, and a sixth report does not raise it. */
  lemma ConfidenceGrows(base: int, more: int, description: bool, rawText: bool, category: bool, n: nat, m: nat)
    requires base <= more && n <= m
    ensures Confidence(base, description, rawText, n, category) <= Confidence(more, description, rawText, m, category)
    ensures Confidence(base, description, rawText, n, category) <= Confidence(base, true, true, n, true)
    ensures n >= 5 ==>
      Confidence(base, description, rawText, m, category) == Confidence(base, description, rawText, n, category)
  {
  }

  /** No signal ever gets a confidence below 16 or above 77. */
  lemma {:induction false} ConfidenceAtMost77(rules: Rules, events: seq<Event>)
    requires forall e :: e in events ==> 0 <= Base(e.report) <= 100
    ensures forall i :: 0 <= i < |Run(rules, events).signals| ==> 16 <= Run(rules, events).signals[i].confidence <= 77
  {
    SignalsFromHistory(rules, events);
    var signals := Run(rules, events).signals;
    forall i: nat | i < |signals|
      ensures 16 <= signals[i].confidence <= 77
    {
      assert RightAt(rules, events, Run(rules, events), i);
      var h := History(rules, events, signals[i].kind, signals[i].normalized);
      assert h[|h| - 1] in h;
      ConfidenceBound(Base(h[|h| - 1].report), Truthy(DescriptionOf(h)), Truthy(RawTextOf(h)), |h|, Truthy(CategoryOf(h)));
    }
  }
}
