/** The daily quota of partner API keys: a counter that is read before a request is admitted
  and incremented, best effort, some time after. */
module Quota {
  import opened Wrappers

  datatype Plan = FREE | PRO | ENTERPRISE

  /** Requests per day; None is unlimited. */
  function DailyLimit(plan: Plan): Option<nat> {
    match plan
    case FREE => Some(1000)
    case PRO => Some(100000)
    case ENTERPRISE => None
  }

  datatype Key = Key(
    id: string, tenantId: string, keyPrefix: string, active: bool, expiresAt: Option<int>, scopes: seq<string>, plan: Plan)

  /** The usage counter of one key on one UTC day. */
  datatype Bucket = Bucket(keyId: string, day: int)

  datatype Header = Absent | One(value: string) | Many(values: seq<string>)

  datatype Principal = Principal(keyId: string, tenantId: string, keyPrefix: string, scopes: seq<string>, plan: Plan)

  datatype Denial =
    | MissingHeader | InvalidKey | Expired
    | MissingScopes(missing: seq<string>)
    | QuotaExceeded(plan: Plan, limit: nat, resetsAt: int)

  datatype Answer = Admitted(principal: Principal) | Denied(reason: Denial)

  const DAY_MS := 86400000

  /** The UTC day of an instant in milliseconds. */
  function Day(now: int): int {
    now / DAY_MS
  }

  function NextMidnight(day: int): int {
    (day + 1) * DAY_MS
  }

  /** The announced reset is the first instant of the next day's counter. */
  lemma ResetIsNextDay(now: int)
    ensures Day(NextMidnight(Day(now))) == Day(now) + 1 && Day(NextMidnight(Day(now)) - 1) == Day(now)
    ensures now < NextMidnight(Day(now)) <= now + 86400000 && NextMidnight(Day(now)) % 86400000 == 0
  {
  }

  // ---------- one request ----------

  function ExtractKey(header: Header): Option<string> {
    match header
    case Absent => None
    case One(value) => Some(value)
    case Many(values) => if values == [] then None else Some(values[0])
  }

  function Missing(required: seq<string>, scopes: seq<string>): (r: seq<string>)
    ensures forall s :: s in r <==> s in required && s !in scopes
  {
    if required == [] then []
    else (if required[0] in scopes then [] else [required[0]]) + Missing(required[1..], scopes)
  }

  /** What is wrong with the credentials, before any quota. */
  function CredentialError(raw: Option<string>, key: Option<Key>, required: seq<string>, now: int): Option<Denial> {
    if raw.None? || raw.value == "" then Some(MissingHeader)
    else if key.None? || !key.value.active then Some(InvalidKey)
    else if key.value.expiresAt.Some? && key.value.expiresAt.value < now then Some(Expired)
    else
      var missing := Missing(required, key.value.scopes);
      if missing != [] then Some(MissingScopes(missing)) else None
  }

  predicate OverQuota(plan: Plan, used: nat) {
    DailyLimit(plan).Some? && used >= DailyLimit(plan).value
  }

  datatype State = State(keys: map<string, Key>, usage: map<Bucket, nat>, pending: multiset<Bucket>)

  const START: State := State(map[], map[], multiset{})

  function Used(usage: map<Bucket, nat>, b: Bucket): nat {
    if b in usage then usage[b] else 0
  }

  function FindKey(keys: map<string, Key>, sha: string -> string, raw: Option<string>): Option<Key> {
    if raw.Some? && sha(raw.value) in keys then Some(keys[sha(raw.value)]) else None
  }

  function ToPrincipal(key: Key): Principal {
    Principal(key.id, key.tenantId, key.keyPrefix, key.scopes, key.plan)
  }

  function AnswerTo(s: State, sha: string -> string, header: Header, required: seq<string>, now: int): Answer {
    var raw := ExtractKey(header);
    var key := FindKey(s.keys, sha, raw);
    var error := CredentialError(raw, key, required, now);
    if error.Some? then Denied(error.value)
    else if OverQuota(key.value.plan, Used(s.usage, Bucket(key.value.id, Day(now))))
    then Denied(QuotaExceeded(key.value.plan, DailyLimit(key.value.plan).value, NextMidnight(Day(now))))
    else Admitted(ToPrincipal(key.value))
  }

  /** Exactly who is admitted. */
  lemma AdmittedExactly(s: State, sha: string -> string, header: Header, required: seq<string>, now: int)
    ensures AnswerTo(s, sha, header, required, now).Admitted? <==>
      exists raw ::
        && ExtractKey(header) == Some(raw) && raw != "" && sha(raw) in s.keys
        && var key := s.keys[sha(raw)];
           && key.active && (key.expiresAt.Some? ==> now <= key.expiresAt.value)
           && (forall scope :: scope in required ==> scope in key.scopes)
           && (DailyLimit(key.plan).Some? ==> Used(s.usage, Bucket(key.id, Day(now))) < DailyLimit(key.plan).value)
  {
    var raw := ExtractKey(header);
    var key := FindKey(s.keys, sha, raw);
    if key.Some? { MissingNone(required, key.value); }
  }

  /** The header gives this key, the first one if it gives several. */
  predicate Presents(header: Header, raw: string) {
    header == One(raw) || (header.Many? && header.values != [] && header.values[0] == raw)
  }

  /** The key that the header gives, active and not expired. */
  ghost predicate Authenticates(s: State, sha: string -> string, header: Header, now: int, key: Key) {
    exists raw :: Presents(header, raw) && raw != "" && sha(raw) in s.keys && s.keys[sha(raw)] == key
      && key.active && (key.expiresAt.Some? ==> now <= key.expiresAt.value)
  }

  ghost predicate Covers(key: Key, required: seq<string>) {
    forall scope :: scope in required ==> scope in key.scopes
  }

  /** What an answer says of the request it is given to. */
  ghost predicate Explains(s: State, sha: string -> string, header: Header, required: seq<string>, now: int,
                           answer: Answer) {
    match answer
    case Denied(MissingHeader) => forall raw :: Presents(header, raw) ==> raw == ""
    case Denied(InvalidKey) =>
      exists raw :: Presents(header, raw) && raw != "" && (sha(raw) !in s.keys || !s.keys[sha(raw)].active)
    case Denied(Expired) =>
      exists raw :: Presents(header, raw) && raw != "" && sha(raw) in s.keys && s.keys[sha(raw)].active
        && s.keys[sha(raw)].expiresAt.Some? && s.keys[sha(raw)].expiresAt.value < now
    case Denied(MissingScopes(missing)) =>
      exists key :: Authenticates(s, sha, header, now, key) && !Covers(key, required)
        && forall scope :: scope in missing <==> scope in required && scope !in key.scopes
    case Denied(QuotaExceeded(plan, limit, resetsAt)) =>
      exists key :: Authenticates(s, sha, header, now, key) && Covers(key, required) && plan == key.plan
        && ((plan == FREE && limit == 1000) || (plan == PRO && limit == 100000))
        && limit <= Used(s.usage, Bucket(key.id, Day(now)))
        && Day(resetsAt) == Day(now) + 1 && Day(resetsAt - 1) == Day(now)
    case Admitted(p) =>
      exists key :: Authenticates(s, sha, header, now, key) && Covers(key, required)
        && p.keyId == key.id && p.tenantId == key.tenantId && p.keyPrefix == key.keyPrefix && p.scopes == key.scopes
        && p.plan == key.plan
  }

  /** Every answer says what is the case: the first thing that is wrong, or whose key was admitted. */
  lemma AnswerMeans(s: State, sha: string -> string, header: Header, required: seq<string>, now: int)
    ensures Explains(s, sha, header, required, now, AnswerTo(s, sha, header, required, now))
  {
    var raw := ExtractKey(header);
    if raw.Some? {
      assert Presents(header, raw.value);
      var key := FindKey(s.keys, sha, raw);
      if key.Some? {
        MissingNone(required, key.value);
        ResetIsNextDay(now);
        assert CredentialError(raw, key, [], now).None? ==> Authenticates(s, sha, header, now, key.value);
      }
    }
  }

  lemma {:induction false} MissingNone(required: seq<string>, key: Key)
    ensures Missing(required, key.scopes) == [] <==> Covers(key, required)
  {
    var missing := Missing(required, key.scopes);
    assert missing != [] ==> missing[0] in missing;
  }

  class ApiKeyGuard {
    const sha: string -> string
    var keys: map<string, Key>
    var usage: map<Bucket, nat>
    /** Increments issued and not yet applied. */
    var pending: multiset<Bucket>

    ghost function Abstract(): State
      reads this
    {
      State(keys, usage, pending)
    }

    constructor (sha: string -> string)
      ensures this.sha == sha && Abstract() == START
    {
      this.sha := sha;
      keys, usage, pending := map[], map[], multiset{};
    }

    method CanActivate(header: Header, required: seq<string>, now: int) returns (answer: Answer)
      modifies this`pending
      ensures answer == AnswerTo(old(Abstract()), sha, header, required, now)
      ensures Abstract() == Do(old(Abstract()), sha, Request(header, required, now))
    {
      var raw := ExtractKey(header);
      if raw.None? || raw.value == "" { return Denied(MissingHeader); }
      var keyHash := sha(raw.value);
      if keyHash !in keys || !keys[keyHash].active { return Denied(InvalidKey); }
      var key := keys[keyHash];
      if key.expiresAt.Some? && key.expiresAt.value < now { return Denied(Expired); }
      var missing := Missing(required, key.scopes);
      if |missing| > 0 { return Denied(MissingScopes(missing)); }

      var limit := DailyLimit(key.plan);
      var today := Day(now);
      var bucket := Bucket(key.id, today);
      if limit.Some? {
        var currentCount := if bucket in usage then usage[bucket] else 0;
        if currentCount >= limit.value {
          return Denied(QuotaExceeded(key.plan, limit.value, NextMidnight(today)));
        }
      }
      pending := pending + multiset{bucket};
      return Admitted(Principal(key.id, key.tenantId, key.keyPrefix, key.scopes, key.plan));
    }

    /** A pending upsert reaches the table: the first of a day creates the row, later ones increment it. */
    method Increment(bucket: Bucket)
      requires bucket in pending
      modifies this`usage, this`pending
      ensures Abstract() == Do(old(Abstract()), sha, Settle(bucket))
    {
      if bucket in usage {
        usage := usage[bucket := usage[bucket] + 1];
      } else {
        usage := usage[bucket := 1];
      }
      pending := pending - multiset{bucket};
    }
  }

  // ---------- runs ----------

  /** Administration may issue, change or revoke a key at any time; a pending increment settles or is lost. */
  datatype Step =
    | Administer(hash: string, key: Key)
    | Request(header: Header, required: seq<string>, now: int)
    | Settle(bucket: Bucket)
    | Lose(bucket: Bucket)

  function Do(s: State, sha: string -> string, step: Step): State {
    match step
    case Administer(hash, key) => s.(keys := s.keys[hash := key])
    case Request(header, required, now) =>
      var a := AnswerTo(s, sha, header, required, now);
      if a.Admitted? then s.(pending := s.pending + multiset{Bucket(a.principal.keyId, Day(now))}) else s
    case Settle(b) =>
      if b in s.pending
      then s.(usage := s.usage[b := Used(s.usage, b) + 1], pending := s.pending - multiset{b})
      else s
    case Lose(b) => s.(pending := s.pending - multiset{b})
  }

  function Run(sha: string -> string, steps: seq<Step>): State {
    if steps == [] then START else Do(Run(sha, steps[..|steps| - 1]), sha, steps[|steps| - 1])
  }

  /** Whether the step admits a request of this key on this day. */
  predicate Admits(s: State, sha: string -> string, step: Step, b: Bucket) {
    && step.Request?
    && var a := AnswerTo(s, sha, step.header, step.required, step.now);
       a.Admitted? && Bucket(a.principal.keyId, Day(step.now)) == b
  }

  function Admissions(sha: string -> string, steps: seq<Step>, b: Bucket): nat {
    if steps == [] then 0
    else
      var before, last := steps[..|steps| - 1], steps[|steps| - 1];
      Admissions(sha, before, b) + (if Admits(Run(sha, before), sha, last, b) then 1 else 0)
  }

  function Lost(sha: string -> string, steps: seq<Step>, b: Bucket): nat {
    if steps == [] then 0
    else
      var before, last := steps[..|steps| - 1], steps[|steps| - 1];
      Lost(sha, before, b) + (if last == Lose(b) && b in Run(sha, before).pending then 1 else 0)
  }

  /** At no time are more than k increments of this bucket outstanding. */
  predicate PeakAtMost(sha: string -> string, steps: seq<Step>, b: Bucket, k: nat) {
    steps == [] || (PeakAtMost(sha, steps[..|steps| - 1], b, k) && Run(sha, steps).pending[b] <= k)
  }

  /** Every plan the key ever has allows at most `limit` requests a day. */
  predicate LimitedTo(steps: seq<Step>, id: string, limit: nat) {
    steps == [] ||
    (LimitedTo(steps[..|steps| - 1], id, limit)
     && var last := steps[|steps| - 1];
        last.Administer? && last.key.id == id ==>
          DailyLimit(last.key.plan).Some? && DailyLimit(last.key.plan).value <= limit)
  }

  lemma {:induction false} AppendStep(sha: string -> string, steps: seq<Step>, step: Step, b: Bucket, k: nat)
    ensures var all, s := steps + [step], Run(sha, steps);
      && Run(sha, all) == Do(s, sha, step)
      && Admissions(sha, all, b) == Admissions(sha, steps, b) + (if Admits(s, sha, step, b) then 1 else 0)
      && Lost(sha, all, b) == Lost(sha, steps, b) + (if step == Lose(b) && b in s.pending then 1 else 0)
      && (PeakAtMost(sha, all, b, k) <==> PeakAtMost(sha, steps, b, k) && Do(s, sha, step).pending[b] <= k)
  {
    assert (steps + [step])[..|steps|] == steps;
  }

  /** Every admission is counted, still pending, or lost. */
  lemma {:induction false} Conservation(sha: string -> string, steps: seq<Step>, b: Bucket)
    ensures var s := Run(sha, steps);
      Used(s.usage, b) + s.pending[b] + Lost(sha, steps, b) == Admissions(sha, steps, b)
  {
    if steps != [] {
      var before, last := steps[..|steps| - 1], steps[|steps| - 1];
      Conservation(sha, before, b);
      StepConserves(Run(sha, before), sha, last, b);
    }
  }

  lemma StepConserves(s: State, sha: string -> string, step: Step, b: Bucket)
    ensures var t := Do(s, sha, step);
      Used(t.usage, b) + t.pending[b] + (if step == Lose(b) && b in s.pending then 1 else 0) ==
      Used(s.usage, b) + s.pending[b] + (if Admits(s, sha, step, b) then 1 else 0)
  {
  }

  ghost predicate TableLimited(keys: map<string, Key>, id: string, limit: nat) {
    forall h :: h in keys && keys[h].id == id ==> DailyLimit(keys[h].plan).Some? && DailyLimit(keys[h].plan).value <= limit
  }

  lemma StepKeepsTable(s: State, sha: string -> string, step: Step, id: string, limit: nat)
    requires TableLimited(s.keys, id, limit)
    requires step.Administer? && step.key.id == id ==>
              DailyLimit(step.key.plan).Some? && DailyLimit(step.key.plan).value <= limit
    ensures TableLimited(Do(s, sha, step).keys, id, limit)
  {
    assert !step.Administer? ==> Do(s, sha, step).keys == s.keys;
  }

  lemma {:induction false} RunTableLimited(sha: string -> string, steps: seq<Step>, id: string, limit: nat)
    requires LimitedTo(steps, id, limit)
    ensures TableLimited(Run(sha, steps).keys, id, limit)
  {
    if steps != [] {
      var before, last := steps[..|steps| - 1], steps[|steps| - 1];
      RunTableLimited(sha, before, id, limit);
      StepKeepsTable(Run(sha, before), sha, last, id, limit);
    }
  }

  lemma AdmittedBelowLimit(s: State, sha: string -> string, step: Step, b: Bucket, limit: nat)
    requires Admits(s, sha, step, b) && TableLimited(s.keys, b.keyId, limit)
    ensures Used(s.usage, b) < limit && Do(s, sha, step).pending[b] == s.pending[b] + 1
  {
    var raw := ExtractKey(step.header);
    assert s.keys[sha(raw.value)].id == b.keyId;
  }

  /** With at most k increments outstanding, a limited key gets at most limit + k - 1 requests through in a day,
      plus one for every increment that was lost. */
  lemma {:induction false} OvershootBound(sha: string -> string, steps: seq<Step>, b: Bucket, limit: nat, k: nat)
    requires 1 <= k && LimitedTo(steps, b.keyId, limit) && PeakAtMost(sha, steps, b, k)
    ensures Admissions(sha, steps, b) <= limit + k - 1 + Lost(sha, steps, b)
  {
    if steps != [] {
      var before, last := steps[..|steps| - 1], steps[|steps| - 1];
      var s := Run(sha, before);
      assert steps == before + [last];
      OvershootBound(sha, before, b, limit, k);
      AppendStep(sha, before, last, b, k);
      Conservation(sha, before, b);
      if Admits(s, sha, last, b) {
        assert TableLimited(s.keys, b.keyId, limit) by { RunTableLimited(sha, before, b.keyId, limit); }
        assert Used(s.usage, b) < limit && s.pending[b] + 1 <= k by { AdmittedBelowLimit(s, sha, last, b, limit); }
      }
    }
  }

  function KeyId(s: State, sha: string -> string, header: Header): Option<string> {
    var key := FindKey(s.keys, sha, ExtractKey(header));
    if key.None? then None else Some(key.value.id)
  }

  /** One request at a time, every increment applied: never more than the limit, and nobody is turned away for the
      quota before exactly the limit has been let through. */
  lemma {:induction false} SequentialExact(sha: string -> string, steps: seq<Step>, b: Bucket, limit: nat,
          header: Header, required: seq<string>, now: int)
    requires LimitedTo(steps, b.keyId, limit) && PeakAtMost(sha, steps, b, 1) && Lost(sha, steps, b) == 0
    ensures Admissions(sha, steps, b) <= limit
    ensures var a := AnswerTo(Run(sha, steps), sha, header, required, now);
      a.Denied? && a.reason.QuotaExceeded? && a.reason.limit == limit && Day(now) == b.day
      && KeyId(Run(sha, steps), sha, header) == Some(b.keyId)
      ==> Admissions(sha, steps, b) == limit
  {
    OvershootBound(sha, steps, b, limit, 1);
    Conservation(sha, steps, b);
  }

  // ---------- the bound is reached ----------

  /** How many admitted requests are counted, pending and lost. */
  datatype Tally = Tally(counted: nat, pending: nat, lost: nat)

  /** One limited, valid key, asking at one time with one header. */
  datatype Client = Client(raw: string, key: Key, now: int)

  function Ask(c: Client): Step {
    Request(One(c.raw), [], c.now)
  }

  function BucketOf(c: Client): Bucket {
    Bucket(c.key.id, Day(c.now))
  }

  /** A limited plan, and a key of that plan that passes every other check. */
  predicate Usable(c: Client) {
    c.raw != "" && c.key.active && c.key.expiresAt.None? && DailyLimit(c.key.plan).Some?
  }

  ghost predicate Holds(s: State, hash: string, c: Client, t: Tally) {
    s.keys == map[hash := c.key] && Used(s.usage, BucketOf(c)) == t.counted && s.pending[BucketOf(c)] == t.pending
  }

  ghost predicate Reached(sha: string -> string, steps: seq<Step>, c: Client, t: Tally, peak: nat) {
    && Holds(Run(sha, steps), sha(c.raw), c, t)
    && Admissions(sha, steps, BucketOf(c)) == t.counted + t.pending + t.lost && Lost(sha, steps, BucketOf(c)) == t.lost
    && PeakAtMost(sha, steps, BucketOf(c), peak)
  }

  lemma RequestAdmitted(s: State, sha: string -> string, c: Client, t: Tally)
    requires Usable(c) && t.counted < DailyLimit(c.key.plan).value && Holds(s, sha(c.raw), c, t)
    ensures Admits(s, sha, Ask(c), BucketOf(c)) && Holds(Do(s, sha, Ask(c)), sha(c.raw), c, t.(pending := t.pending + 1))
  {
  }

  /** Steps that administer nothing keep every limit. */
  lemma {:induction false} StepsKeepLimit(steps: seq<Step>, more: seq<Step>, id: string, limit: nat)
    requires LimitedTo(steps, id, limit) && forall i :: 0 <= i < |more| ==> !more[i].Administer?
    ensures LimitedTo(steps + more, id, limit)
  {
    if more == [] {
      assert steps + more == steps;
    } else {
      var n := |more| - 1;
      StepsKeepLimit(steps, more[..n], id, limit);
      assert (steps + more)[..|steps| + n] == steps + more[..n];
    }
  }

  lemma AskOne(sha: string -> string, steps: seq<Step>, c: Client, t: Tally, peak: nat)
    requires Usable(c) && t.pending < peak && t.counted < DailyLimit(c.key.plan).value && Reached(sha, steps, c, t, peak)
    ensures Reached(sha, steps + [Ask(c)], c, t.(pending := t.pending + 1), peak)
  {
    AppendStep(sha, steps, Ask(c), BucketOf(c), peak);
    RequestAdmitted(Run(sha, steps), sha, c, t);
  }

  lemma SettleOne(sha: string -> string, steps: seq<Step>, c: Client, t: Tally, peak: nat)
    requires Usable(c) && Reached(sha, steps, c, t, peak) && t.pending > 0
    ensures Reached(sha, steps + [Settle(BucketOf(c))], c, t.(counted := t.counted + 1, pending := t.pending - 1), peak)
  {
    AppendStep(sha, steps, Settle(BucketOf(c)), BucketOf(c), peak);
  }

  lemma LoseOne(sha: string -> string, steps: seq<Step>, c: Client, t: Tally, peak: nat)
    requires Usable(c) && Reached(sha, steps, c, t, peak) && t.pending > 0
    ensures Reached(sha, steps + [Lose(BucketOf(c))], c, t.(lost := t.lost + 1, pending := t.pending - 1), peak)
  {
    AppendStep(sha, steps, Lose(BucketOf(c)), BucketOf(c), peak);
  }

  lemma IssueReaches(sha: string -> string, c: Client, peak: nat)
    requires Usable(c)
    ensures Reached(sha, [Administer(sha(c.raw), c.key)], c, Tally(0, 0, 0), peak)
    ensures Limited([Administer(sha(c.raw), c.key)], c)
  {
    var issue := Administer(sha(c.raw), c.key);
    AppendStep(sha, [], issue, BucketOf(c), peak);
    assert [] + [issue] == [issue];
  }

  ghost predicate Limited(steps: seq<Step>, c: Client)
    requires Usable(c)
  {
    LimitedTo(steps, c.key.id, DailyLimit(c.key.plan).value)
  }

  lemma AskNext(sha: string -> string, steps: seq<Step>, c: Client, t: Tally, peak: nat) returns (r: seq<Step>)
    requires Usable(c) && t.pending < peak && t.counted < DailyLimit(c.key.plan).value
              && Reached(sha, steps, c, t, peak) && Limited(steps, c)
    ensures Reached(sha, r, c, t.(pending := t.pending + 1), peak) && Limited(r, c)
  {
    AskOne(sha, steps, c, t, peak);
    StepsKeepLimit(steps, [Ask(c)], c.key.id, DailyLimit(c.key.plan).value);
    r := steps + [Ask(c)];
  }

  lemma SettleNext(sha: string -> string, steps: seq<Step>, c: Client, t: Tally, peak: nat) returns (r: seq<Step>)
    requires Usable(c) && t.pending > 0 && Reached(sha, steps, c, t, peak) && Limited(steps, c)
    ensures Reached(sha, r, c, t.(counted := t.counted + 1, pending := t.pending - 1), peak) && Limited(r, c)
  {
    SettleOne(sha, steps, c, t, peak);
    StepsKeepLimit(steps, [Settle(BucketOf(c))], c.key.id, DailyLimit(c.key.plan).value);
    r := steps + [Settle(BucketOf(c))];
  }

  lemma LoseNext(sha: string -> string, steps: seq<Step>, c: Client, t: Tally, peak: nat) returns (r: seq<Step>)
    requires Usable(c) && t.pending > 0 && Reached(sha, steps, c, t, peak) && Limited(steps, c)
    ensures Reached(sha, r, c, t.(lost := t.lost + 1, pending := t.pending - 1), peak) && Limited(r, c)
  {
    LoseOne(sha, steps, c, t, peak);
    StepsKeepLimit(steps, [Lose(BucketOf(c))], c.key.id, DailyLimit(c.key.plan).value);
    r := steps + [Lose(BucketOf(c))];
  }

  /** l requests, one after the other, whose increments are lost. */
  lemma {:induction false} LossyRun(sha: string -> string, steps: seq<Step>, c: Client, l: nat, peak: nat)
    returns (r: seq<Step>)
    requires Usable(c) && 1 <= peak && 0 < DailyLimit(c.key.plan).value
    requires Reached(sha, steps, c, Tally(0, 0, 0), peak) && Limited(steps, c)
    ensures Reached(sha, r, c, Tally(0, 0, l), peak) && Limited(r, c)
  {
    if l == 0 {
      r := steps;
    } else {
      var before := LossyRun(sha, steps, c, l - 1, peak);
      r := AskNext(sha, before, c, Tally(0, 0, l - 1), peak);
      r := LoseNext(sha, r, c, Tally(0, 1, l - 1), peak);
    }
  }

  /** Then n requests, one after the other, whose increments are applied. */
  lemma {:induction false} CalmRun(sha: string -> string, steps: seq<Step>, c: Client, n: nat, l: nat,
          peak: nat) returns (r: seq<Step>)
    requires Usable(c) && 1 <= peak && n <= DailyLimit(c.key.plan).value
    requires Reached(sha, steps, c, Tally(0, 0, l), peak) && Limited(steps, c)
    ensures Reached(sha, r, c, Tally(n, 0, l), peak) && Limited(r, c)
  {
    if n == 0 {
      r := steps;
    } else {
      var before := CalmRun(sha, steps, c, n - 1, l, peak);
      r := AskNext(sha, before, c, Tally(n - 1, 0, l), peak);
      r := SettleNext(sha, r, c, Tally(n - 1, 1, l), peak);
    }
  }

  /** Then k requests at once. */
  lemma {:induction false} BurstRun(sha: string -> string, steps: seq<Step>, c: Client, n: nat, k: nat, l: nat,
          peak: nat) returns (r: seq<Step>)
    requires Usable(c) && k <= peak && n < DailyLimit(c.key.plan).value
    requires Reached(sha, steps, c, Tally(n, 0, l), peak) && Limited(steps, c)
    ensures Reached(sha, r, c, Tally(n, k, l), peak) && Limited(r, c)
  {
    if k == 0 {
      r := steps;
    } else {
      var before := BurstRun(sha, steps, c, n, k - 1, l, peak);
      r := AskNext(sha, before, c, Tally(n, k - 1, l), peak);
    }
  }

  /** The bound is exact: for every limited plan, every k and every l some run with at most k increments outstanding and l
      of them lost admits limit + k - 1 + l requests. */
  lemma OvershootReached(sha: string -> string, c: Client, k: nat, l: nat)
    requires Usable(c) && 1 <= k
    ensures exists steps ::
      && PeakAtMost(sha, steps, BucketOf(c), k) && LimitedTo(steps, c.key.id, DailyLimit(c.key.plan).value)
      && Lost(sha, steps, BucketOf(c)) == l
      && Admissions(sha, steps, BucketOf(c)) == DailyLimit(c.key.plan).value + k - 1 + l
  {
    var n := DailyLimit(c.key.plan).value - 1;
    IssueReaches(sha, c, k);
    var lossy := LossyRun(sha, [Administer(sha(c.raw), c.key)], c, l, k);
    var calm := CalmRun(sha, lossy, c, n, l, k);
    var burst := BurstRun(sha, calm, c, n, k, l, k);
  }

  /** Exactly how much a limited key can get through in a day: a number bounds all runs with at most k increments
      outstanding and at most l lost, if and only if it is at least limit + k - 1 + l. */
  lemma OvershootExact(sha: string -> string, c: Client, k: nat, l: nat, bound: nat)
    requires Usable(c) && 1 <= k
    ensures (forall steps :: WithinMeans(sha, steps, c, k, l) ==> Admissions(sha, steps, BucketOf(c)) <= bound) <==>
            DailyLimit(c.key.plan).value + k - 1 + l <= bound
  {
    if DailyLimit(c.key.plan).value + k - 1 + l <= bound {
      forall steps | WithinMeans(sha, steps, c, k, l)
        ensures Admissions(sha, steps, BucketOf(c)) <= bound
      {
        OvershootBound(sha, steps, BucketOf(c), DailyLimit(c.key.plan).value, k);
      }
    } else {
      OvershootReached(sha, c, k, l);
      var steps :|
        && PeakAtMost(sha, steps, BucketOf(c), k) && LimitedTo(steps, c.key.id, DailyLimit(c.key.plan).value)
        && Lost(sha, steps, BucketOf(c)) == l
        && Admissions(sha, steps, BucketOf(c)) == DailyLimit(c.key.plan).value + k - 1 + l;
      assert WithinMeans(sha, steps, c, k, l);
    }
  }

  /** The key keeps its limit, at most k of its increments are ever outstanding, at most l are lost. */
  ghost predicate WithinMeans(sha: string -> string, steps: seq<Step>, c: Client, k: nat, l: nat)
    requires Usable(c)
  {
    && Limited(steps, c)
    && PeakAtMost(sha, steps, BucketOf(c), k) && Lost(sha, steps, BucketOf(c)) <= l
  }

  /** So the quota is never exceeded exactly when requests come one at a time and no increment is lost. */
  lemma QuotaHoldsExactly(sha: string -> string, c: Client, k: nat, l: nat)
    requires Usable(c) && 1 <= k
    ensures (forall steps :: WithinMeans(sha, steps, c, k, l) ==>
               Admissions(sha, steps, BucketOf(c)) <= DailyLimit(c.key.plan).value) <==>
            k == 1 && l == 0
  {
    OvershootExact(sha, c, k, l, DailyLimit(c.key.plan).value);
  }
}
