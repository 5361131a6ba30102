/** Subscription billing driven by webhooks that may be redelivered, fail half way and be retried. */
module Billing {
  import opened AsciiText
  import opened Wrappers

  datatype Plan = FREE | BASIC | FAMILY_GUARDIAN | PREMIUM_SHIELD
  datatype Status = INACTIVE | TRIALING | ACTIVE | PAST_DUE | CANCELED | MANUAL

  function MapStripeStatus(s: string): Status {
    if s == "trialing" then TRIALING
    else if s == "active" then ACTIVE
    else if s == "past_due" || s == "unpaid" then PAST_DUE
    else if s == "canceled" || s == "incomplete_expired" then CANCELED
    else INACTIVE
  }

  predicate Entitled(s: Status) {
    s in {TRIALING, ACTIVE, MANUAL}
  }

  // ---------- prices ----------

  /** The configured price ids. */
  datatype Prices = Prices(basic: Option<string>, family: Option<string>, premium: Option<string>)

  function PriceOf(prices: Prices, plan: Plan): Option<string> {
    match plan
    case FREE => None
    case BASIC => prices.basic
    case FAMILY_GUARDIAN => prices.family
    case PREMIUM_SHIELD => prices.premium
  }

  function Code(plan: Plan): string {
    match plan
    case FREE => "FREE"
    case BASIC => "BASIC"
    case FAMILY_GUARDIAN => "FAMILY_GUARDIAN"
    case PREMIUM_SHIELD => "PREMIUM_SHIELD"
  }

  function ConfiguredPlan(prices: Prices, priceId: string): Option<Plan> {
    if prices.premium == Some(priceId) then Some(PREMIUM_SHIELD)
    else if prices.family == Some(priceId) then Some(FAMILY_GUARDIAN)
    else if prices.basic == Some(priceId) then Some(BASIC)
    else None
  }

  /** Stub price ids carry the plan code at their end. */
  function SuffixPlan(priceId: string): Plan {
    if EndsWith(priceId, Code(PREMIUM_SHIELD)) then PREMIUM_SHIELD
    else if EndsWith(priceId, Code(FAMILY_GUARDIAN)) then FAMILY_GUARDIAN
    else if EndsWith(priceId, Code(BASIC)) then BASIC
    else FREE
  }

  function PlanFromPriceId(prices: Prices, priceId: Option<string>): Plan {
    if priceId.None? || priceId.value == "" then FREE
    else
      var configured := ConfiguredPlan(prices, priceId.value);
      if configured.Some? then configured.value else SuffixPlan(priceId.value)
  }

  /** The price that a checkout for the plan is started with. */
  function CheckoutPrice(prices: Prices, plan: Plan): string {
    if PriceOf(prices, plan).Some? then PriceOf(prices, plan).value else "price_stub_" + Code(plan)
  }

  /** The order in which configured prices are compared. */
  function Rank(plan: Plan): nat {
    match plan
    case PREMIUM_SHIELD => 0
    case FAMILY_GUARDIAN => 1
    case BASIC => 2
    case FREE => 3
  }

  /** The plan bought is the plan granted, exactly when the price is not empty and no other plan that is compared
      first has the same price configured. */
  lemma CheckoutGrantsPlan(prices: Prices, plan: Plan)
    requires plan != FREE
    ensures var price := CheckoutPrice(prices, plan);
      PlanFromPriceId(prices, Some(price)) == plan <==>
      && price != ""
      && forall other :: other != plan && PriceOf(prices, other) == Some(price) ==>
           PriceOf(prices, plan).Some? && Rank(plan) < Rank(other)
  {
    var price := CheckoutPrice(prices, plan);
    ConfiguredFirst(prices, price);
    if PriceOf(prices, plan).None? { StubSuffix(plan); }
  }

  /** Of the plans configured with a price, the one that is compared first. */
  lemma ConfiguredFirst(prices: Prices, price: string)
    ensures var c := ConfiguredPlan(prices, price);
      && (c.Some? ==> PriceOf(prices, c.value) == Some(price))
      && forall other :: PriceOf(prices, other) == Some(price) ==> c.Some? && Rank(c.value) <= Rank(other)
  {
    forall other | PriceOf(prices, other) == Some(price)
      ensures ConfiguredPlan(prices, price).Some? && Rank(ConfiguredPlan(prices, price).value) <= Rank(other)
    {
      match other
      case PREMIUM_SHIELD =>
      case FAMILY_GUARDIAN =>
      case BASIC =>
    }
  }

  lemma EndOfAppend(s: string, t: string)
    ensures EndsWith(s + t, t)
  {
  }

  lemma OtherEnd(s: string, t: string)
    requires s != "" && t != "" && s[|s| - 1] != t[|t| - 1]
    ensures !EndsWith(s, t)
  {
    assert |t| <= |s| ==> s[|s| - 1] == s[|s| - |t|..][|t| - 1];
  }

  lemma CodeEnd(plan: Plan)
    ensures Code(plan) != ""
    ensures Code(plan)[|Code(plan)| - 1] ==
            match plan case FREE => 'E' case BASIC => 'C' case FAMILY_GUARDIAN => 'N' case PREMIUM_SHIELD => 'D'
  {
  }

  lemma StubSuffix(plan: Plan)
    requires plan != FREE
    ensures SuffixPlan("price_stub_" + Code(plan)) == plan
  {
    forall other | other != FREE
      ensures EndsWith("price_stub_" + Code(plan), Code(other)) <==> other == plan
    {
      CodeEnd(plan);
      CodeEnd(other);
      if other == plan {
        EndOfAppend("price_stub_", Code(plan));
      } else {
        OtherEnd("price_stub_" + Code(plan), Code(other));
      }
    }
  }

  // ---------- rows ----------

  datatype Subscription = Subscription(
    plan: Plan, status: Status, customerId: Option<string>, subscriptionId: Option<string>, priceId: Option<string>,
    currentPeriodEnd: Option<int>, cancelAtPeriodEnd: bool, manualInvoice: bool)

  const DEFAULTS := Subscription(FREE, INACTIVE, None, None, None, None, false, false)

  /** The fields of an upsert; an absent field keeps its value. */
  datatype Patch = Patch(
    plan: Option<Plan>, status: Option<Status>, customerId: Option<string>, subscriptionId: Option<string>,
    priceId: Option<string>, currentPeriodEnd: Option<int>, cancelAtPeriodEnd: Option<bool>, manualInvoice: Option<bool>)

  const NO_FIELDS := Patch(None, None, None, None, None, None, None, None)

  function Patched(row: Subscription, p: Patch): Subscription {
    Subscription(
      OrDefault(p.plan, row.plan), OrDefault(p.status, row.status), OrElse(p.customerId, row.customerId),
      OrElse(p.subscriptionId, row.subscriptionId), OrElse(p.priceId, row.priceId),
      OrElse(p.currentPeriodEnd, row.currentPeriodEnd), OrDefault(p.cancelAtPeriodEnd, row.cancelAtPeriodEnd),
      OrDefault(p.manualInvoice, row.manualInvoice))
  }

  type Table = map<string, Subscription>

  function Upsert(table: Table, tenantId: string, p: Patch): Table {
    table[tenantId := Patched(if tenantId in table then table[tenantId] else DEFAULTS, p)]
  }

  /** The plan a tenant is entitled to right now. */
  function EffectivePlan(table: Table, tenantId: string): Plan {
    if tenantId !in table || !Entitled(table[tenantId].status) then FREE else table[tenantId].plan
  }

  // ---------- events ----------

  datatype StripeSubscription = StripeSubscription(
    id: string, status: string, priceId: Option<string>, currentPeriodEnd: int, cancelAtPeriodEnd: Option<bool>)

  /** `customer` and `subscription` are None when they are not plain ids. */
  datatype Payload =
    | CheckoutCompleted(customer: Option<string>, subscription: Option<string>)
    | SubscriptionCreated(sub: StripeSubscription)
    | SubscriptionUpdated(sub: StripeSubscription)
    | SubscriptionDeleted(sub: StripeSubscription)
    | Unhandled(kind: string)

  /** `tenantId` is the one in the object's metadata. */
  datatype Event = Event(id: string, tenantId: Option<string>, payload: Payload)

  function StatePatch(prices: Prices, sub: StripeSubscription, deleted: bool): Patch {
    NO_FIELDS.(
      plan := Some(if deleted then FREE else PlanFromPriceId(prices, sub.priceId)),
      status := Some(if deleted then CANCELED else MapStripeStatus(sub.status)),
      subscriptionId := Some(sub.id),
      priceId := sub.priceId,
      currentPeriodEnd := if sub.currentPeriodEnd != 0 then Some(sub.currentPeriodEnd * 1000) else None,
      cancelAtPeriodEnd := Some(OrDefault(sub.cancelAtPeriodEnd, false)))
  }

  /** The upsert that an event leads to, if any. */
  function WriteOf(prices: Prices, e: Event): Option<Patch> {
    if e.tenantId.None? || e.tenantId.value == "" then None
    else match e.payload
      case CheckoutCompleted(customer, subscription) =>
        if customer.None? then None
        else Some(NO_FIELDS.(customerId := customer, subscriptionId := subscription, status := Some(ACTIVE)))
      case SubscriptionCreated(sub) => Some(StatePatch(prices, sub, false))
      case SubscriptionUpdated(sub) => Some(StatePatch(prices, sub, false))
      case SubscriptionDeleted(sub) => Some(StatePatch(prices, sub, true))
      case Unhandled(_) => None
  }

  datatype LogRow = LogRow(event: Event, tenantId: Option<string>, processed: bool)

  datatype State = State(table: Table, log: map<string, LogRow>)

  const START: State := State(map[], map[])

  /** Where an attempt breaks off: at its first read or write, at the upsert, when marking the event processed, or not
      at all. */
  datatype Fault = AtStart | AtWrite | AtMark | NoFault

  datatype Reply = Received(deduped: bool) | Failed

  function Write(prices: Prices, table: Table, e: Event): Table {
    if WriteOf(prices, e).Some? then Upsert(table, e.tenantId.value, WriteOf(prices, e).value) else table
  }

  function Logged(log: map<string, LogRow>, e: Event): map<string, LogRow> {
    if e.id in log then log else log[e.id := LogRow(e, e.tenantId, false)]
  }

  function Marked(log: map<string, LogRow>, e: Event): map<string, LogRow>
    requires e.id in log
  {
    log[e.id := log[e.id].(processed := true, tenantId := OrElse(e.tenantId, log[e.id].tenantId))]
  }

  predicate Processed(s: State, id: string) {
    id in s.log && s.log[id].processed
  }

  /** One delivery attempt. */
  function Attempt(prices: Prices, s: State, e: Event, fault: Fault): State {
    if Processed(s, e.id) then s
    else match fault
      case AtStart => s
      case AtWrite => s.(log := Logged(s.log, e))
      case AtMark => State(Write(prices, s.table, e), Logged(s.log, e))
      case NoFault => State(Write(prices, s.table, e), Marked(Logged(s.log, e), e))
  }

  class BillingService {
    const prices: Prices
    var table: Table
    var log: map<string, LogRow>

    ghost function Abstract(): State
      reads this
    {
      State(table, log)
    }

    constructor (prices: Prices)
      ensures this.prices == prices && Abstract() == START
    {
      this.prices := prices;
      table, log := map[], map[];
    }

    method UpsertSubscription(tenantId: string, p: Patch)
      modifies this`table
      ensures table == Upsert(old(table), tenantId, p)
    {
      if tenantId in table {
        table := table[tenantId := Patched(table[tenantId], p)];
      } else {
        table := table[tenantId := Patched(DEFAULTS, p)];
      }
    }

    method ApplySubscriptionState(tenantId: string, sub: StripeSubscription, deleted: bool)
      modifies this`table
      ensures table == Upsert(old(table), tenantId, StatePatch(prices, sub, deleted))
    {
      var plan := PlanFromPriceId(prices, sub.priceId);
      var nextStatus := if deleted then CANCELED else MapStripeStatus(sub.status);
      var nextPlan := if deleted then FREE else plan;
      UpsertSubscription(tenantId, NO_FIELDS.(
        plan := Some(nextPlan),
        status := Some(nextStatus),
        subscriptionId := Some(sub.id),
        priceId := sub.priceId,
        currentPeriodEnd := if sub.currentPeriodEnd != 0 then Some(sub.currentPeriodEnd * 1000) else None,
        cancelAtPeriodEnd := Some(if sub.cancelAtPeriodEnd.Some? then sub.cancelAtPeriodEnd.value else false)));
    }

    method ApplyEvent(event: Event)
      modifies this`table
      ensures table == Write(prices, old(table), event)
    {
      match event.payload
      case CheckoutCompleted(customer, subscription) =>
        if event.tenantId.Some? && event.tenantId.value != "" && customer.Some? {
          UpsertSubscription(event.tenantId.value,
            NO_FIELDS.(customerId := customer, subscriptionId := subscription, status := Some(ACTIVE)));
        }
      case SubscriptionCreated(sub) =>
        if event.tenantId.Some? && event.tenantId.value != "" { ApplySubscriptionState(event.tenantId.value, sub, false); }
      case SubscriptionUpdated(sub) =>
        if event.tenantId.Some? && event.tenantId.value != "" { ApplySubscriptionState(event.tenantId.value, sub, false); }
      case SubscriptionDeleted(sub) =>
        if event.tenantId.Some? && event.tenantId.value != "" { ApplySubscriptionState(event.tenantId.value, sub, true); }
      case Unhandled(_) =>
    }

    /** `fault` says where this attempt breaks off. */
    method HandleWebhook(event: Event, fault: Fault) returns (reply: Reply)
      modifies this
      ensures Abstract() == Attempt(prices, old(Abstract()), event, fault)
      ensures reply == (if Processed(old(Abstract()), event.id) then Received(true)
              else if fault == NoFault then Received(false) else Failed)
    {
      if event.id in log && log[event.id].processed { return Received(true); }
      if fault == AtStart { return Failed; }
      if event.id !in log {
        log := log[event.id := LogRow(event, event.tenantId, false)];
      }
      if fault == AtWrite { return Failed; }
      ApplyEvent(event);
      if fault == AtMark { return Failed; }
      var logRow := log[event.id];
      log := log[event.id := logRow.(processed := true, 
        tenantId := if event.tenantId.Some? then event.tenantId else logRow.tenantId)];
      return Received(false);
    }

    method SetManualInvoice(tenantExists: bool, tenantId: string, plan: Plan) returns (ok: bool)
      modifies this`table
      ensures ok == tenantExists
      ensures table == if ok then Upsert(old(table), tenantId, ManualPatch(plan)) else old(table)
    {
      if !tenantExists { return false; }
      UpsertSubscription(tenantId, NO_FIELDS.(plan := Some(plan), status := Some(MANUAL), manualInvoice := Some(true)));
      return true;
    }

    /** What starting a checkout writes. */
    method SaveCustomer(tenantId: string, customerId: string)
      modifies this`table
      ensures table == Upsert(old(table), tenantId, CustomerPatch(customerId))
    {
      UpsertSubscription(tenantId, NO_FIELDS.(customerId := Some(customerId)));
    }

    method ResolveEffectivePlan(tenantId: string) returns (plan: Plan)
      ensures plan == EffectivePlan(table, tenantId)
      ensures plan != FREE ==> tenantId in table && Entitled(table[tenantId].status)
    {
      if tenantId !in table { return FREE; }
      if !Entitled(table[tenantId].status) { return FREE; }
      return table[tenantId].plan;
    }
  }

  function ManualPatch(plan: Plan): Patch {
    NO_FIELDS.(plan := Some(plan), status := Some(MANUAL), manualInvoice := Some(true))
  }

  function CustomerPatch(customerId: string): Patch {
    NO_FIELDS.(customerId := Some(customerId))
  }

  // ---------- the row that an event leaves ----------

  /** The plan that a price buys: of the plans configured with it the one compared first, else the one whose code it ends
      with. */
  ghost predicate Buys(prices: Prices, priceId: Option<string>, plan: Plan) {
    if priceId.None? || priceId.value == "" then plan == FREE
    else if exists other :: PriceOf(prices, other) == priceId then
      PriceOf(prices, plan) == priceId && forall other :: PriceOf(prices, other) == priceId ==> Rank(plan) <= Rank(other)
    else if plan == FREE then forall other :: other != FREE ==> !EndsWith(priceId.value, Code(other))
    else EndsWith(priceId.value, Code(plan))
  }

  lemma PlanGranted(prices: Prices, priceId: Option<string>, plan: Plan)
    ensures PlanFromPriceId(prices, priceId) == plan <==> Buys(prices, priceId, plan)
  {
    if priceId.Some? && priceId.value != "" {
      ConfiguredFirst(prices, priceId.value);
      RankTells(plan, PlanFromPriceId(prices, priceId));
      SuffixTells(priceId.value, plan);
    }
  }

  lemma RankTells(p: Plan, q: Plan)
    ensures Rank(p) == Rank(q) <==> p == q
  {
  }

  /** A text ends with one plan code at most. */
  lemma SuffixTells(price: string, plan: Plan)
    ensures SuffixPlan(price) == plan <==>
            if plan == FREE then forall other :: other != FREE ==> !EndsWith(price, Code(other))
            else EndsWith(price, Code(plan))
  {
    forall p: Plan, q: Plan | p != FREE && q != FREE && p != q
      ensures !(EndsWith(price, Code(p)) && EndsWith(price, Code(q)))
    {
      OneEnding(price, p, q);
    }
  }

  lemma OneEnding(price: string, p: Plan, q: Plan)
    requires p != FREE && q != FREE && p != q
    ensures !(EndsWith(price, Code(p)) && EndsWith(price, Code(q)))
  {
    CodeEnd(p);
    CodeEnd(q);
    LastOfEnd(price, Code(p));
    LastOfEnd(price, Code(q));
  }

  lemma LastOfEnd(s: string, t: string)
    requires t != ""
    ensures EndsWith(s, t) ==> s != "" && s[|s| - 1] == t[|t| - 1]
  {
    if s != "" && s[|s| - 1] != t[|t| - 1] { OtherEnd(s, t); }
  }

  /** What the payment provider's status words mean here. */
  ghost predicate StatusSays(word: string, status: Status) {
    match status
    case TRIALING => word == "trialing"
    case ACTIVE => word == "active"
    case PAST_DUE => word == "past_due" || word == "unpaid"
    case CANCELED => word == "canceled" || word == "incomplete_expired"
    case INACTIVE => word !in {"trialing", "active", "past_due", "unpaid", "canceled", "incomplete_expired"}
    case MANUAL => false
  }

  lemma StatusMapped(word: string, status: Status)
    ensures MapStripeStatus(word) == status <==> StatusSays(word, status)
  {
  }

  /** The row before, for a tenant without one the one that the upsert starts from. */
  function RowOf(table: Table, tenantId: string): Subscription {
    if tenantId in table then table[tenantId] else Subscription(FREE, INACTIVE, None, None, None, None, false, false)
  }

  predicate HasTenant(e: Event) {
    e.tenantId.Some? && e.tenantId.value != ""
  }

  /** The row after a subscription event, in terms of the event and the row before. */
  ghost predicate SubscriptionRow(prices: Prices, was: Subscription, row: Subscription, sub: StripeSubscription,
                                  deleted: bool) {
    && (if deleted then row.plan == FREE && row.status == CANCELED
        else Buys(prices, sub.priceId, row.plan) && StatusSays(sub.status, row.status))
    && row.subscriptionId == Some(sub.id)
    && row.priceId == (if sub.priceId.Some? then sub.priceId else was.priceId)
    && row.currentPeriodEnd ==
       (if sub.currentPeriodEnd == 0 then was.currentPeriodEnd else Some(sub.currentPeriodEnd * 1000))
    && row.cancelAtPeriodEnd == (sub.cancelAtPeriodEnd == Some(true))
    && row.customerId == was.customerId && row.manualInvoice == was.manualInvoice
  }

  ghost predicate CheckoutRow(was: Subscription, row: Subscription, customer: string, subscription: Option<string>) {
    && row.status == ACTIVE && row.customerId == Some(customer)
    && row.subscriptionId == (if subscription.Some? then subscription else was.subscriptionId)
    && row.plan == was.plan && row.priceId == was.priceId && row.currentPeriodEnd == was.currentPeriodEnd
    && row.cancelAtPeriodEnd == was.cancelAtPeriodEnd && row.manualInvoice == was.manualInvoice
  }

  /** What an event leaves of the table when it is written: another row for its tenant, or nothing new. */
  ghost predicate Leaves(prices: Prices, before: Table, e: Event, after: Table) {
    if !HasTenant(e) || e.payload.Unhandled? || (e.payload.CheckoutCompleted? && e.payload.customer.None?) then
      after == before
    else
      && e.tenantId.value in after && after == before[e.tenantId.value := after[e.tenantId.value]]
      && var was, row := RowOf(before, e.tenantId.value), after[e.tenantId.value];
      match e.payload
      case CheckoutCompleted(customer, subscription) =>
        customer.Some? && CheckoutRow(was, row, customer.value, subscription)
      case SubscriptionCreated(sub) => SubscriptionRow(prices, was, row, sub, false)
      case SubscriptionUpdated(sub) => SubscriptionRow(prices, was, row, sub, false)
      case SubscriptionDeleted(sub) => SubscriptionRow(prices, was, row, sub, true)
      case Unhandled(_) => true
  }

  lemma StateWritten(prices: Prices, table: Table, tenantId: string, sub: StripeSubscription, deleted: bool)
    ensures var row := Upsert(table, tenantId, StatePatch(prices, sub, deleted))[tenantId];
      SubscriptionRow(prices, RowOf(table, tenantId), row, sub, deleted)
  {
    PlanGranted(prices, sub.priceId, PlanFromPriceId(prices, sub.priceId));
    StatusMapped(sub.status, MapStripeStatus(sub.status));
  }

  /** An attempt that gets to its write, at an event not processed before, leaves the table that the payload calls for; any
      other attempt leaves it alone. */
  lemma AttemptLeaves(prices: Prices, s: State, e: Event, fault: Fault)
    ensures var t := Attempt(prices, s, e, fault);
      if Processed(s, e.id) || fault == AtStart || fault == AtWrite then t.table == s.table
      else Leaves(prices, s.table, e, t.table)
  {
    if HasTenant(e) {
      match e.payload
      case SubscriptionCreated(sub) => StateWritten(prices, s.table, e.tenantId.value, sub, false);
      case SubscriptionUpdated(sub) => StateWritten(prices, s.table, e.tenantId.value, sub, false);
      case SubscriptionDeleted(sub) => StateWritten(prices, s.table, e.tenantId.value, sub, true);
      case _ =>
    }
  }

  /** An attempt that gets past its first read logs the event, once and as first delivered, and only one that runs to its end
      marks it processed; no other row of the log changes. */
  lemma AttemptLogs(prices: Prices, s: State, e: Event, fault: Fault)
    ensures var t := Attempt(prices, s, e, fault);
      if Processed(s, e.id) || fault == AtStart then t.log == s.log
      else
        && e.id in t.log && t.log == s.log[e.id := t.log[e.id]]
        && t.log[e.id].event == (if e.id in s.log then s.log[e.id].event else e)
        && (t.log[e.id].processed <==> fault == NoFault)
        && t.log[e.id].tenantId ==
           (if e.id in s.log && (fault != NoFault || e.tenantId.None?) then s.log[e.id].tenantId else e.tenantId)
  {
  }

  /** A manual invoice sets plan, status and its mark, the start of a checkout the customer, and nothing else. */
  lemma OtherRows(table: Table, tenantId: string, plan: Plan, customerId: string)
    ensures Upsert(table, tenantId, ManualPatch(plan)) ==
            table[tenantId := RowOf(table, tenantId).(plan := plan, status := MANUAL, manualInvoice := true)]
    ensures Upsert(table, tenantId, CustomerPatch(customerId)) ==
            table[tenantId := RowOf(table, tenantId).(customerId := Some(customerId))]
  {
  }

  // ---------- retries ----------

  predicate NoFurther(a: Fault, b: Fault) {
    match a
    case AtStart => true
    case AtWrite => b != AtStart
    case AtMark => b == AtMark || b == NoFault
    case NoFault => b == NoFault
  }

  lemma PatchIdempotent(row: Subscription, p: Patch)
    ensures Patched(Patched(row, p), p) == Patched(row, p)
  {
  }

  lemma UpsertIdempotent(table: Table, tenantId: string, p: Patch)
    ensures Upsert(Upsert(table, tenantId, p), tenantId, p) == Upsert(table, tenantId, p)
  {
    PatchIdempotent(if tenantId in table then table[tenantId] else DEFAULTS, p);
  }

  /** Two attempts at one event in a row leave exactly what the further one leaves alone: table and log.
      So any number of failed attempts that are retried at once leave what a single success leaves. */
  lemma AttemptsMerge(prices: Prices, s: State, e: Event, first: Fault, second: Fault)
    ensures Attempt(prices, Attempt(prices, s, e, first), e, second) ==
            Attempt(prices, s, e, if NoFurther(first, second) then second else first)
  {
    if WriteOf(prices, e).Some? {
      UpsertIdempotent(s.table, e.tenantId.value, WriteOf(prices, e).value);
    }
  }

  // ---------- runs ----------

  datatype Op =
    | Deliver(event: Event, fault: Fault)
    | Manual(tenantId: string, plan: Plan)
    | Customer(tenantId: string, customerId: string)

  function Do(prices: Prices, s: State, op: Op): State {
    match op
    case Deliver(e, fault) => Attempt(prices, s, e, fault)
    case Manual(tenantId, plan) => s.(table := Upsert(s.table, tenantId, ManualPatch(plan)))
    case Customer(tenantId, customerId) => s.(table := Upsert(s.table, tenantId, CustomerPatch(customerId)))
  }

  function Run(prices: Prices, ops: seq<Op>): State {
    if ops == [] then START else Do(prices, Run(prices, ops[..|ops| - 1]), ops[|ops| - 1])
  }

  predicate Reaches(fault: Fault) {
    fault == AtMark || fault == NoFault
  }

  /** The events that an attempt has written. */
  function Written(ops: seq<Op>): set<string> {
    if ops == [] then {}
    else
      var last := ops[|ops| - 1];
      Written(ops[..|ops| - 1]) + (if last.Deliver? && Reaches(last.fault) then {last.event.id} else {})
  }

  /** The table that results when every event is written once, at its first attempt that gets that far. */
  function Once(prices: Prices, ops: seq<Op>): Table {
    if ops == [] then map[]
    else
      var before, last := ops[..|ops| - 1], ops[|ops| - 1];
      match last
      case Deliver(e, fault) =>
        if Reaches(fault) && e.id !in Written(before) then Write(prices, Once(prices, before), e) else Once(prices, before)
      case Manual(tenantId, plan) => Upsert(Once(prices, before), tenantId, ManualPatch(plan))
      case Customer(tenantId, customerId) => Upsert(Once(prices, before), tenantId, CustomerPatch(customerId))
  }

  /** The upsert that an operation performs in a state: on which row, and which fields. */
  function Effect(prices: Prices, s: State, op: Op): Option<(string, Patch)> {
    match op
    case Deliver(e, fault) =>
      if !Processed(s, e.id) && Reaches(fault) && WriteOf(prices, e).Some?
      then Some((e.tenantId.value, WriteOf(prices, e).value)) else None
    case Manual(tenantId, plan) => Some((tenantId, ManualPatch(plan)))
    case Customer(tenantId, customerId) => Some((tenantId, CustomerPatch(customerId)))
  }

  /** The last upsert of a tenant's row. */
  function LastPatch(prices: Prices, ops: seq<Op>, tenantId: string): Option<Patch> {
    if ops == [] then None
    else
      var before := ops[..|ops| - 1];
      var w := Effect(prices, Run(prices, before), ops[|ops| - 1]);
      if w.Some? && w.value.0 == tenantId then Some(w.value.1) else LastPatch(prices, before, tenantId)
  }

  /** The row holds every field that the upsert sets. */
  predicate HoldsFields(row: Subscription, p: Patch) {
    && (p.plan.Some? ==> row.plan == p.plan.value)
    && (p.status.Some? ==> row.status == p.status.value)
    && (p.customerId.Some? ==> row.customerId == p.customerId)
    && (p.subscriptionId.Some? ==> row.subscriptionId == p.subscriptionId)
    && (p.priceId.Some? ==> row.priceId == p.priceId)
    && (p.currentPeriodEnd.Some? ==> row.currentPeriodEnd == p.currentPeriodEnd)
    && (p.cancelAtPeriodEnd.Some? ==> row.cancelAtPeriodEnd == p.cancelAtPeriodEnd.value)
    && (p.manualInvoice.Some? ==> row.manualInvoice == p.manualInvoice.value)
  }

  predicate Holds(table: Table, tenantId: string, p: Patch) {
    tenantId in table && HoldsFields(table[tenantId], p)
  }

  lemma HoldsIsNoChange(table: Table, tenantId: string, p: Patch)
    ensures Holds(table, tenantId, p) <==> Upsert(table, tenantId, p) == table
  {
    if tenantId in table {
      assert HoldsFields(table[tenantId], p) <==> Patched(table[tenantId], p) == table[tenantId];
      assert Upsert(table, tenantId, p)[tenantId] == Patched(table[tenantId], p);
      if HoldsFields(table[tenantId], p) { assert Upsert(table, tenantId, p) == table; }
    } else {
      assert tenantId in Upsert(table, tenantId, p);
    }
  }

  /** The operation attempts, with effect, an event that an earlier attempt has written. */
  predicate Rewrites(prices: Prices, before: seq<Op>, op: Op) {
    op.Deliver? && op.event.id in Written(before) && Effect(prices, Run(prices, before), op).Some?
  }

  /** Every such attempt finds a row that already holds the fields it sets. */
  predicate Settled(prices: Prices, ops: seq<Op>) {
    ops == [] ||
    var before, last := ops[..|ops| - 1], ops[|ops| - 1];
    && Settled(prices, before)
    && (Rewrites(prices, before, last) ==>
          Holds(Run(prices, before).table, last.event.tenantId.value, WriteOf(prices, last.event).value))
  }

  lemma TableStep(prices: Prices, s: State, op: Op)
    ensures Do(prices, s, op).table ==
      var w := Effect(prices, s, op); if w.Some? then Upsert(s.table, w.value.0, w.value.1) else s.table
  {
  }

  lemma {:induction false} ProcessedWritten(prices: Prices, ops: seq<Op>, id: string)
    ensures Processed(Run(prices, ops), id) ==> id in Written(ops)
  {
    if ops != [] { ProcessedWritten(prices, ops[..|ops| - 1], id); }
  }

  lemma {:induction false} RunAppend(prices: Prices, ops: seq<Op>, op: Op)
    ensures Run(prices, ops + [op]) == Do(prices, Run(prices, ops), op)
    ensures Written(ops + [op]) == Written(ops) + (if op.Deliver? && Reaches(op.fault) then {op.event.id} else {})
    ensures op.Deliver? ==>
              Once(prices, ops + [op]) ==
              if Reaches(op.fault) && op.event.id !in Written(ops) then Write(prices, Once(prices, ops), op.event)
                else Once(prices, ops)
  {
    assert (ops + [op])[..|ops|] == ops;
  }

  /** One more operation keeps the table the one that writes every event once, exactly when it rewrites nothing that
      has changed. */
  lemma {:induction false} StepWrittenOnce(prices: Prices, before: seq<Op>, op: Op)
    requires Run(prices, before).table == Once(prices, before)
    ensures Run(prices, before + [op]).table == Once(prices, before + [op]) <==>
            (Rewrites(prices, before, op) ==>
               Holds(Run(prices, before).table, op.event.tenantId.value, WriteOf(prices, op.event).value))
  {
    var s := Run(prices, before);
    RunAppend(prices, before, op);
    TableStep(prices, s, op);
    if op.Deliver? {
      ProcessedWritten(prices, before, op.event.id);
      if Rewrites(prices, before, op) {
        HoldsIsNoChange(s.table, op.event.tenantId.value, WriteOf(prices, op.event).value);
      }
    }
  }

  /** Redeliveries, failures and retries leave, at all times, the table in which every event is written once, exactly when
      every attempt that repeats a write finds a row that still holds the fields it sets. */
  lemma {:induction false} WrittenOnce(prices: Prices, ops: seq<Op>)
    ensures Settled(prices, ops) <==> forall n :: 0 <= n <= |ops| ==> Run(prices, ops[..n]).table == Once(prices, ops[..n])
  {
    if ops == [] {
      assert ops[..0] == [];
    } else {
      var m := |ops| - 1;
      var before := ops[..m];
      WrittenOnce(prices, before);
      assert forall n :: 0 <= n <= m ==> before[..n] == ops[..n];
      assert ops == before + [ops[m]] && ops[..m + 1] == ops;
      if Run(prices, before).table == Once(prices, before) {
        StepWrittenOnce(prices, before, ops[m]);
      } else {
        assert before[..m] == before;
      }
      assert forall n :: 0 <= n <= m + 1 ==> n <= m || ops[..n] == ops;
    }
  }

  /** Between an attempt that wrote its event and the next attempt at the same event, nothing else was written to that
      tenant's row. */
  predicate Undisturbed(prices: Prices, ops: seq<Op>) {
    ops == [] ||
    var before, last := ops[..|ops| - 1], ops[|ops| - 1];
    && Undisturbed(prices, before)
    && (Rewrites(prices, before, last) ==>
          LastPatch(prices, before, last.event.tenantId.value) == WriteOf(prices, last.event))
  }

  /** The last upsert of a row is what the row holds. */
  lemma {:induction false} LastPatchHeld(prices: Prices, ops: seq<Op>, tenantId: string)
    ensures var p := LastPatch(prices, ops, tenantId); p.Some? ==> Holds(Run(prices, ops).table, tenantId, p.value)
  {
    if ops != [] {
      var before, last := ops[..|ops| - 1], ops[|ops| - 1];
      LastPatchHeld(prices, before, tenantId);
      TableStep(prices, Run(prices, before), last);
    }
  }

  lemma {:induction false} UndisturbedSettled(prices: Prices, ops: seq<Op>)
    requires Undisturbed(prices, ops)
    ensures Settled(prices, ops)
  {
    if ops != [] {
      var before, last := ops[..|ops| - 1], ops[|ops| - 1];
      UndisturbedSettled(prices, before);
      if Rewrites(prices, before, last) { LastPatchHeld(prices, before, last.event.tenantId.value); }
    }
  }

  /** So redeliveries and retries are harmless as long as nothing else is written to the tenant's row in between. */
  lemma {:induction false} RetryHarmless(prices: Prices, ops: seq<Op>)
    requires Undisturbed(prices, ops)
    ensures Run(prices, ops).table == Once(prices, ops)
  {
    UndisturbedSettled(prices, ops);
    WrittenOnce(prices, ops);
    assert ops[..|ops|] == ops;
  }

  predicate FaultFree(ops: seq<Op>) {
    forall i :: 0 <= i < |ops| && ops[i].Deliver? ==> ops[i].fault == NoFault
  }

  lemma {:induction false} FaultFreeProcesses(prices: Prices, ops: seq<Op>, id: string)
    requires FaultFree(ops)
    ensures Processed(Run(prices, ops), id) <==> id in Written(ops)
  {
    if ops != [] { FaultFreeProcesses(prices, ops[..|ops| - 1], id); }
  }

  lemma {:induction false} FaultFreeSettled(prices: Prices, ops: seq<Op>)
    requires FaultFree(ops)
    ensures Settled(prices, ops)
  {
    if ops != [] {
      var before, last := ops[..|ops| - 1], ops[|ops| - 1];
      FaultFreeSettled(prices, before);
      if last.Deliver? { FaultFreeProcesses(prices, before, last.event.id); }
    }
  }

  /** Without faults, any redeliveries in any order leave the table of the first deliveries alone. */
  lemma {:induction false} RedeliveryHarmless(prices: Prices, ops: seq<Op>)
    requires FaultFree(ops)
    ensures Run(prices, ops).table == Once(prices, ops)
  {
    FaultFreeSettled(prices, ops);
    WrittenOnce(prices, ops);
    assert ops[..|ops|] == ops;
  }

  /** A retry that comes after another event of the same tenant writes over that event: where the deletion of a
      subscription came in between, the plan is granted again. */
  lemma {:induction false} LateRetryReorders(prices: Prices, update: Event, deletion: Event, tenantId: string)
    requires update.id != deletion.id && tenantId != ""
    requires update.tenantId == Some(tenantId) && update.payload.SubscriptionUpdated?
    requires deletion.tenantId == Some(tenantId) && deletion.payload.SubscriptionDeleted?
    ensures var table := Run(prices, [Deliver(update, AtMark), Deliver(deletion, NoFault), Deliver(update, NoFault)]).table;
      var once := Once(prices, [Deliver(update, AtMark), Deliver(deletion, NoFault), Deliver(update, NoFault)]);
      && EffectivePlan(once, tenantId) == FREE
      && EffectivePlan(table, tenantId) ==
         if Entitled(MapStripeStatus(update.payload.sub.status))
         then PlanFromPriceId(prices, update.payload.sub.priceId) else FREE
  {
    var a, b, c := Deliver(update, AtMark), Deliver(deletion, NoFault), Deliver(update, NoFault);
    RunAppend(prices, [], a);
    RunAppend(prices, [a], b);
    RunAppend(prices, [a, b], c);
    assert [] + [a] == [a] && [a] + [b] == [a, b] && [a, b] + [c] == [a, b, c];
  }

  // ---------- cancellation ----------

  /** An operation that may raise the tenant's plan: a created or updated subscription, or a manual invoice. */
  predicate Grants(op: Op, tenantId: string) {
    match op
    case Deliver(e, _) => e.tenantId == Some(tenantId) && (e.payload.SubscriptionCreated? || e.payload.SubscriptionUpdated?)
    case Manual(t, _) => t == tenantId
    case Customer(_, _) => false
  }

  predicate OnFree(table: Table, tenantId: string) {
    tenantId in table ==> table[tenantId].plan == FREE
  }

  lemma StaysFree(prices: Prices, s: State, op: Op, tenantId: string)
    requires OnFree(s.table, tenantId)
    requires Grants(op, tenantId) ==> Effect(prices, s, op).None?
    ensures OnFree(Do(prices, s, op).table, tenantId)
  {
    TableStep(prices, s, op);
  }

  /** After a deletion event was written, the tenant's effective plan is FREE through whatever follows, completed
      checkouts, redeliveries of processed events and attempts that fail before their write included, until the creation
      or update of a subscription is written or a manual invoice is set. */
  lemma {:induction false} DeletionHolds(prices: Prices, ops: seq<Op>, n: nat, tenantId: string)
    requires n < |ops| && ops[n].Deliver? && ops[n].event.payload.SubscriptionDeleted?
              && ops[n].event.tenantId == Some(tenantId)
    requires Effect(prices, Run(prices, ops[..n]), ops[n]).Some?
    requires forall i :: n < i < |ops| && Grants(ops[i], tenantId) ==> Effect(prices, Run(prices, ops[..i]), ops[i]).None?
    ensures OnFree(Run(prices, ops).table, tenantId) && EffectivePlan(Run(prices, ops).table, tenantId) == FREE
  {
    var m := |ops| - 1;
    if n == m {
      TableStep(prices, Run(prices, ops[..n]), ops[n]);
    } else {
      var before := ops[..m];
      assert forall i :: 0 <= i <= m ==> before[..i] == ops[..i];
      DeletionHolds(prices, before, n, tenantId);
      StaysFree(prices, Run(prices, before), ops[m], tenantId);
    }
  }

  // ---------- the effective plan, from the history of writes ----------

  /** The plan that was last written to the tenant's row, and likewise the status. */
  function LastPlan(prices: Prices, ops: seq<Op>, tenantId: string): Option<Plan> {
    if ops == [] then None
    else
      var before := ops[..|ops| - 1];
      var w := Effect(prices, Run(prices, before), ops[|ops| - 1]);
      if w.Some? && w.value.0 == tenantId && w.value.1.plan.Some? then w.value.1.plan else LastPlan(prices, before, tenantId)
  }

  function LastStatus(prices: Prices, ops: seq<Op>, tenantId: string): Option<Status> {
    if ops == [] then None
    else
      var before := ops[..|ops| - 1];
      var w := Effect(prices, Run(prices, before), ops[|ops| - 1]);
      if w.Some? && w.value.0 == tenantId && w.value.1.status.Some? then w.value.1.status
        else LastStatus(prices, before, tenantId)
  }

  lemma {:induction false} RowFromHistory(prices: Prices, ops: seq<Op>, tenantId: string)
    ensures var table := Run(prices, ops).table;
      var row := if tenantId in table then table[tenantId] else DEFAULTS;
      row.plan == OrDefault(LastPlan(prices, ops, tenantId), FREE)
        && row.status == OrDefault(LastStatus(prices, ops, tenantId), INACTIVE)
  {
    if ops != [] {
      var before := ops[..|ops| - 1];
      RowFromHistory(prices, before, tenantId);
      TableStep(prices, Run(prices, before), ops[|ops| - 1]);
    }
  }

  /** A tenant holds a paid plan exactly when the last plan written for it is that plan and the last status written for it,
      possibly by another event, is one that entitles. */
  lemma {:induction false} EffectiveFromHistory(prices: Prices, ops: seq<Op>, tenantId: string, plan: Plan)
    requires plan != FREE
    ensures EffectivePlan(Run(prices, ops).table, tenantId) == plan <==>
            && LastPlan(prices, ops, tenantId) == Some(plan)
            && LastStatus(prices, ops, tenantId) in {Some(TRIALING), Some(ACTIVE), Some(MANUAL)}
  {
    RowFromHistory(prices, ops, tenantId);
  }
}
