/** The canonical text of one evidence event, and what two events with the same text share. */
module EvidenceHash {
  import opened CanonicalJson
  import opened JsonReader
  import opened Wrappers
  import AsciiText

  /** The hashed content of one evidence event. `occurredAt` is the ISO text of the instant. */
  datatype Event = Event(
    sequence: nat,
    tenantId: Option<Text>,
    actorId: Option<Text>,
    actorType: Option<Text>,
    entityType: Text,
    entityId: Text,
    eventType: Text,
    eventDescription: Text,
    metadata: Json,
    ipAddress: Option<Text>,
    deviceId: Option<Text>,
    occurredAt: Text,
    previousHash: Option<Text>)

  /** The code units of an ASCII text; no other characters are used here. */
  function Ascii(s: string): (t: Text)
    ensures |t| == |s| && forall i :: 0 <= i < |s| ==> s[i] < 128 as char ==> t[i] == s[i] as int
  {
    seq(|s|, i requires 0 <= i < |s| => if s[i] < 128 as char then s[i] as int else 0)
  }

  function DecimalText(n: nat): (t: Text)
    ensures NumberText(t)
  {
    DigitsAreNumber(n, Ascii(AsciiText.Decimal(n)));
    Ascii(AsciiText.Decimal(n))
  }

  lemma {:induction false} DigitsToEnd(t: Text, k: nat)
    requires k <= |t| && forall i :: k <= i < |t| ==> Digit(t[i])
    ensures DigitsEnd(t, k) == |t|
    decreases |t| - k
  {
    if k < |t| { DigitsToEnd(t, k + 1); }
  }

  lemma {:induction false} DigitsAreNumber(n: nat, t: Text)
    requires t == Ascii(AsciiText.Decimal(n))
    ensures NumberText(t)
  {
    var s := AsciiText.Decimal(n);
    AsciiText.DecimalReads(n);
    assert forall i :: 0 <= i < |t| ==> AsciiText.IsDigit(s[i]) && Digit(t[i]);
    DigitsToEnd(t, 0);
    assert s[0] == '0' ==> s == AsciiText.Decimal(0);
  }

  lemma DecimalTextInjective(m: nat, n: nat)
    requires DecimalText(m) == DecimalText(n)
    ensures m == n
  {
    var s, t := AsciiText.Decimal(m), AsciiText.Decimal(n);
    assert |s| == |DecimalText(m)| && |t| == |DecimalText(n)|;
    assert forall i :: 0 <= i < |s| ==> s[i] as int == DecimalText(m)[i] == DecimalText(n)[i] == t[i] as int;
    assert s == t;
    AsciiText.DecimalInjective(m, n);
  }

  function Nullable(s: Option<Text>): Json {
    if s.None? then Null else Str(s.value)
  }

  function OrNull(v: Json): Json {
    if v.Undefined? then Null else v
  }

  /** The i-th name in the object literal that is printed and hashed. */
  function EventName(i: nat): string {
    match i
    case 0 => "sequence"
    case 1 => "tenantId"
    case 2 => "actorId"
    case 3 => "actorType"
    case 4 => "entityType"
    case 5 => "entityId"
    case 6 => "eventType"
    case 7 => "eventDescription"
    case 8 => "metadata"
    case 9 => "ipAddress"
    case 10 => "deviceId"
    case 11 => "occurredAt"
    case _ => "previousHash"
  }

  function EventKeys(): (ks: seq<Text>)
    ensures |ks| == 13 && forall i :: 0 <= i < 13 ==> ks[i] == Ascii(EventName(i))
  {
    seq(13, i requires 0 <= i < 13 => Ascii(EventName(i)))
  }

  /** And the value under that name. */
  function EventValue(e: Event, i: nat): Json {
    match i
    case 0 => Num(DecimalText(e.sequence))
    case 1 => Nullable(e.tenantId)
    case 2 => Nullable(e.actorId)
    case 3 => Nullable(e.actorType)
    case 4 => Str(e.entityType)
    case 5 => Str(e.entityId)
    case 6 => Str(e.eventType)
    case 7 => Str(e.eventDescription)
    case 8 => OrNull(e.metadata)
    case 9 => Nullable(e.ipAddress)
    case 10 => Nullable(e.deviceId)
    case 11 => Str(e.occurredAt)
    case _ => Nullable(e.previousHash)
  }

  function EventFields(e: Event): (fields: seq<Field>)
    ensures |fields| == 13
    ensures Keys(fields) == EventKeys()
    ensures forall i :: 0 <= i < 13 ==> fields[i] == Field(EventKeys()[i], EventValue(e, i))
  {
    seq(13, i requires 0 <= i < 13 => Field(EventKeys()[i], EventValue(e, i)))
  }

  function EventText(e: Event): Text {
    Print(Obj(EventFields(e)))
  }

  /** Equal in every hashed field, metadata up to key order. */
  ghost predicate SameContent(e: Event, f: Event) {
    e.(metadata := Null) == f.(metadata := Null) && Same(e.metadata, f.metadata)
  }

  // Length and first letter already tell the thirteen names apart.
  function Tag(name: string): int
    requires name != ""
  {
    1000 * |name| + name[0] as int
  }

  const TAGS: seq<int> := [8115, 8116, 7097, 9097, 10101, 8101, 9101, 16101, 8109, 9105, 8100, 10111, 12112]

  lemma NameTag(i: nat)
    requires i < 13
    ensures EventName(i) != "" && EventName(i)[0] < 128 as char && Tag(EventName(i)) == TAGS[i]
  {
  }

  lemma NamesDiffer(i: nat, j: nat)
    requires i < j < 13
    ensures Ascii(EventName(i)) != Ascii(EventName(j))
  {
    NameTag(i);
    NameTag(j);
    assert TAGS[i] != TAGS[j];
    var s, t := Ascii(EventName(i)), Ascii(EventName(j));
    assert 1000 * |s| + s[0] != 1000 * |t| + t[0];
  }

  lemma EventKeysDistinct(e: Event)
    ensures DistinctKeys(EventFields(e))
  {
    forall i: nat, j: nat | i < j < 13
      ensures EventFields(e)[i].key != EventFields(e)[j].key
    {
      NamesDiffer(i, j);
    }
  }

  lemma EventWellFormed(e: Event)
    requires WellFormed(e.metadata)
    ensures WellFormed(Obj(EventFields(e)))
  {
    EventKeysDistinct(e);
    assert forall i :: 0 <= i < 13 ==> WellFormed(EventValue(e, i));
  }

  lemma SameFields(f: seq<Field>, g: seq<Field>)
    requires DistinctKeys(f) && DistinctKeys(g) && Keys(f) == Keys(g)
    ensures Same(Obj(f), Obj(g)) <==> forall i :: 0 <= i < |f| ==> Same(f[i].value, g[i].value)
  {
    if Same(Obj(f), Obj(g)) {
      forall i | 0 <= i < |f|
        ensures Same(f[i].value, g[i].value)
      {
        SameField(f, g, i);
      }
    }
    if forall i :: 0 <= i < |f| ==> Same(f[i].value, g[i].value) {
      forall k | k in Keys(f)
        ensures Same(Get(f, k), Get(g, k))
      {
        SameField(f, g, IndexOf(f, k));
      }
    }
  }

  lemma SameField(f: seq<Field>, g: seq<Field>, i: nat)
    requires DistinctKeys(f) && DistinctKeys(g) && Keys(f) == Keys(g) && i < |f|
    ensures |g| == |f| && g[i].key == f[i].key && f[i].key in Keys(f)
    ensures Get(f, f[i].key) == f[i].value && Get(g, f[i].key) == g[i].value
  {
    assert |f| == |Keys(f)| == |g|;
    assert f[i].key == Keys(f)[i] == Keys(g)[i] == g[i].key;
    GetAt(f, i);
    GetAt(g, i);
  }

  lemma {:induction false} OrNullSame(v: Json, w: Json)
    ensures Same(OrNull(v), OrNull(w)) <==> Same(v, w)
  {
  }

  lemma NullableSame(s: Option<Text>, t: Option<Text>)
    ensures Same(Nullable(s), Nullable(t)) <==> s == t
  {
  }

  lemma SameValueAt(e: Event, f: Event, i: nat)
    requires i < 13
    ensures Same(EventValue(e, i), EventValue(f, i)) <==> SameAt(e, f, i)
  {
    match i
    case 0 => if DecimalText(e.sequence) == DecimalText(f.sequence) { DecimalTextInjective(e.sequence, f.sequence); }
    case 1 => NullableSame(e.tenantId, f.tenantId);
    case 2 => NullableSame(e.actorId, f.actorId);
    case 3 => NullableSame(e.actorType, f.actorType);
    case 8 => OrNullSame(e.metadata, f.metadata);
    case 9 => NullableSame(e.ipAddress, f.ipAddress);
    case 10 => NullableSame(e.deviceId, f.deviceId);
    case 12 => NullableSame(e.previousHash, f.previousHash);
    case _ =>
  }

  /** The events agree on the field that is printed at position `i` of the literal. */
  ghost predicate SameAt(e: Event, f: Event, i: nat) {
    match i
    case 0 => e.sequence == f.sequence
    case 1 => e.tenantId == f.tenantId
    case 2 => e.actorId == f.actorId
    case 3 => e.actorType == f.actorType
    case 4 => e.entityType == f.entityType
    case 5 => e.entityId == f.entityId
    case 6 => e.eventType == f.eventType
    case 7 => e.eventDescription == f.eventDescription
    case 8 => Same(e.metadata, f.metadata)
    case 9 => e.ipAddress == f.ipAddress
    case 10 => e.deviceId == f.deviceId
    case 11 => e.occurredAt == f.occurredAt
    case _ => e.previousHash == f.previousHash
  }

  lemma SameFieldsSameContent(e: Event, f: Event)
    ensures Same(Obj(EventFields(e)), Obj(EventFields(f))) <==> SameContent(e, f)
  {
    EventKeysDistinct(e);
    EventKeysDistinct(f);
    SameFields(EventFields(e), EventFields(f));
    forall i | 0 <= i < 13
      ensures Same(EventFields(e)[i].value, EventFields(f)[i].value) <==> SameAt(e, f, i)
    {
      SameValueAt(e, f, i);
    }
    SameAtAll(e, f);
  }

  lemma SameAtAll(e: Event, f: Event)
    ensures (forall i: nat :: i < 13 ==> SameAt(e, f, i)) <==> SameContent(e, f)
  {
    if forall i: nat :: i < 13 ==> SameAt(e, f, i) {
      assert SameAt(e, f, 0) && SameAt(e, f, 1) && SameAt(e, f, 2) && SameAt(e, f, 3) && SameAt(e, f, 4);
      assert SameAt(e, f, 5) && SameAt(e, f, 6) && SameAt(e, f, 7) && SameAt(e, f, 8) && SameAt(e, f, 9);
      assert SameAt(e, f, 10) && SameAt(e, f, 11) && SameAt(e, f, 12);
    }
  }

  /** The object has a member of that name, with that value. */
  ghost predicate Says(fields: seq<Field>, name: string, v: Json) {
    Ascii(name) in Keys(fields) && Get(fields, Ascii(name)) == v
  }

  ghost predicate SaysSame(fields: seq<Field>, name: string, v: Json) {
    Ascii(name) in Keys(fields) && Same(v, Get(fields, Ascii(name)))
  }

  lemma {:induction false} ReadBack(v: Json, w: Json)
    requires Same(v, w) && Canonical(w) && (v.Null? || v.Str? || v.Num?)
    ensures w == v
  {
  }

  lemma GetCanonical(fields: seq<Field>, k: Text)
    requires Canonical(Obj(fields)) && k in Keys(fields)
    ensures Canonical(Get(fields, k))
  {
    var i :| 0 <= i < |fields| && fields[i] == Field(k, Get(fields, k));
  }

  /** What is read under the i-th name. */
  lemma MemberRead(e: Event, fields: seq<Field>, i: nat)
    requires i < 13 && Same(Obj(EventFields(e)), Obj(fields)) && Canonical(Obj(fields))
    ensures SaysSame(fields, EventName(i), EventValue(e, i))
  {
    EventKeysDistinct(e);
    GetAt(EventFields(e), i);
  }

  lemma ScalarRead(e: Event, fields: seq<Field>, i: nat)
    requires i < 13 && i != 8 && Same(Obj(EventFields(e)), Obj(fields)) && Canonical(Obj(fields))
    ensures Says(fields, EventName(i), EventValue(e, i))
  {
    MemberRead(e, fields, i);
    GetCanonical(fields, Ascii(EventName(i)));
    ScalarAt(e, i);
    ReadBack(EventValue(e, i), Get(fields, Ascii(EventName(i))));
  }

  lemma ScalarAt(e: Event, i: nat)
    requires i < 13 && i != 8
    ensures var v := EventValue(e, i); v.Null? || v.Str? || v.Num?
  {
  }

  /** The canonical text is a JSON object with exactly thirteen members, which say what the event says. */
  lemma EventTextReads(e: Event)
    requires WellFormed(e.metadata)
    ensures ReadsEvent(ReadValue(EventText(e)), e)
  {
    EventWellFormed(e);
    PrintReads(Obj(EventFields(e)), []);
    assert EventText(e) + [] == EventText(e);
    ObjectRead(e, ReadValue(EventText(e)));
  }

  ghost predicate ReadsEvent(r: Read<Json>, e: Event) {
    r.Done? && r.rest == [] && r.value.Obj? && SaysEvent(r.value.fields, e)
  }

  lemma ObjectRead(e: Event, r: Read<Json>)
    requires Gives(r, Obj(EventFields(e)), [])
    ensures ReadsEvent(r, e)
  {
    EventRead(e, r.value.fields);
  }

  ghost predicate SaysEvent(fields: seq<Field>, e: Event) {
    Ordered(Keys(fields)) && |fields| == 13 && SaysSubject(fields, e) && SaysContent(fields, e) && SaysOrigin(fields, e)
    && SaysChain(fields, e)
  }

  ghost predicate SaysSubject(fields: seq<Field>, e: Event) {
    && Says(fields, "sequence", Num(DecimalText(e.sequence)))
    && Says(fields, "tenantId", Nullable(e.tenantId))
    && Says(fields, "actorId", Nullable(e.actorId))
    && Says(fields, "actorType", Nullable(e.actorType))
    && Says(fields, "entityType", Str(e.entityType))
    && Says(fields, "entityId", Str(e.entityId))
  }

  ghost predicate SaysContent(fields: seq<Field>, e: Event) {
    && Says(fields, "eventType", Str(e.eventType))
    && Says(fields, "eventDescription", Str(e.eventDescription))
    && SaysSame(fields, "metadata", e.metadata)
  }

  ghost predicate SaysOrigin(fields: seq<Field>, e: Event) {
    && Says(fields, "ipAddress", Nullable(e.ipAddress))
    && Says(fields, "deviceId", Nullable(e.deviceId))
  }

  ghost predicate SaysChain(fields: seq<Field>, e: Event) {
    && Says(fields, "occurredAt", Str(e.occurredAt))
    && Says(fields, "previousHash", Nullable(e.previousHash))
  }

  lemma EventRead(e: Event, fields: seq<Field>)
    requires Same(Obj(EventFields(e)), Obj(fields)) && Canonical(Obj(fields))
    ensures SaysEvent(fields, e)
  {
    forall i: nat | i < 13 && i != 8
      ensures SaysAt(fields, e, i)
    {
      ScalarRead(e, fields, i);
    }
    MemberRead(e, fields, 8);
    MetadataRead(e, fields);
    SubjectRead(e, fields);
    ContentRead(e, fields);
    OriginRead(e, fields);
    ChainRead(e, fields);
    MemberCount(e, fields);
  }

  ghost predicate SaysAt(fields: seq<Field>, e: Event, i: nat) {
    Says(fields, EventName(i), EventValue(e, i))
  }

  lemma SubjectRead(e: Event, fields: seq<Field>)
    requires forall i: nat :: i < 13 && i != 8 ==> SaysAt(fields, e, i)
    ensures SaysSubject(fields, e)
  {
    assert SaysAt(fields, e, 0) && SaysAt(fields, e, 1) && SaysAt(fields, e, 2);
    assert SaysAt(fields, e, 3) && SaysAt(fields, e, 4) && SaysAt(fields, e, 5);
  }

  lemma ContentRead(e: Event, fields: seq<Field>)
    requires forall i: nat :: i < 13 && i != 8 ==> SaysAt(fields, e, i)
    requires SaysSame(fields, "metadata", e.metadata)
    ensures SaysContent(fields, e)
  {
    assert SaysAt(fields, e, 6) && SaysAt(fields, e, 7);
  }

  lemma OriginRead(e: Event, fields: seq<Field>)
    requires forall i: nat :: i < 13 && i != 8 ==> SaysAt(fields, e, i)
    ensures SaysOrigin(fields, e)
  {
    assert SaysAt(fields, e, 9) && SaysAt(fields, e, 10);
  }

  lemma ChainRead(e: Event, fields: seq<Field>)
    requires forall i: nat :: i < 13 && i != 8 ==> SaysAt(fields, e, i)
    ensures SaysChain(fields, e)
  {
    assert SaysAt(fields, e, 11) && SaysAt(fields, e, 12);
  }

  lemma MetadataRead(e: Event, fields: seq<Field>)
    requires SaysSame(fields, EventName(8), EventValue(e, 8))
    ensures SaysSame(fields, "metadata", e.metadata)
  {
    OrNullRead(e.metadata, Get(fields, Ascii(EventName(8))));
  }

  lemma {:induction false} OrNullRead(v: Json, w: Json)
    requires Same(OrNull(v), w)
    ensures Same(v, w)
  {
  }

  lemma MemberCount(e: Event, fields: seq<Field>)
    requires Same(Obj(EventFields(e)), Obj(fields)) && Canonical(Obj(fields))
    ensures |fields| == 13
  {
    EventKeysDistinct(e);
    SameCount(EventFields(e), fields);
  }

  lemma SameCount(f: seq<Field>, g: seq<Field>)
    requires DistinctKeys(f) && Same(Obj(f), Obj(g)) && Ordered(Keys(g))
    ensures |f| == |g|
  {
    SortOrdered(Keys(f));
    SortKeeps(Keys(f));
    OrderedUnique(Sort(Keys(f)), Keys(g));
    assert |multiset(Sort(Keys(f)))| == |multiset(Keys(f))|;
  }

  /** Two events have the same canonical text exactly when they agree on every hashed field. */
  lemma EventTextUnambiguous(e: Event, f: Event)
    requires WellFormed(e.metadata) && WellFormed(f.metadata)
    ensures EventText(e) == EventText(f) <==> SameContent(e, f)
  {
    EventWellFormed(e);
    EventWellFormed(f);
    PrinterUnambiguous(Obj(EventFields(e)), Obj(EventFields(f)));
    SameFieldsSameContent(e, f);
  }

  /** `computeEventHash` over the hash function `sha`. */
  function ComputeEventHash(sha: Text -> Text): Event -> Text {
    (e: Event) => sha(EventText(e))
  }

  /** The digest tells two events apart exactly when their contents differ. */
  ghost predicate Faithful(digest: Event -> Text, e: Event, f: Event) {
    digest(e) == digest(f) <==> SameContent(e, f)
  }

  /** Events with well-formed metadata whose canonical texts do not collide have faithful digests. */
  lemma DigestFaithful(sha: Text -> Text, e: Event, f: Event)
    requires WellFormed(e.metadata) && WellFormed(f.metadata)
    requires sha(EventText(e)) == sha(EventText(f)) ==> EventText(e) == EventText(f)
    ensures Faithful(ComputeEventHash(sha), e, f)
  {
    EventTextUnambiguous(e, f);
  }
}
