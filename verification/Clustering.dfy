/** Cluster keys: how a signal names the cluster it belongs to, and how a key is read back. */
module Clustering {
  import opened AsciiText
  import opened Normalization
  import opened Wrappers

  datatype MatchType = SHARED_DOMAIN_ROOT | SHARED_EMAIL

  datatype DerivedClusterKey = DerivedClusterKey(key: string, matchType: MatchType, caption: string)

  /** `replace(/\.+$/, '')`. */
  function StripDots(s: string): (r: string)
    ensures r <= s && (r != [] ==> r[|r| - 1] != '.')
  {
    if s != [] && s[|s| - 1] == '.' then StripDots(s[..|s| - 1]) else s
  }

  /** The non-empty labels of a host name. */
  function Labels(s: string): seq<string> {
    NonEmpty(Split(s, '.'))
  }

  /** The trimmed, lower-cased host without its trailing dots. */
  function Clean(host: string): string {
    StripDots(Lower(Trim(host)))
  }

  /** The last two labels, if there are two. */
  function RootOfLabels(labels: seq<string>): Option<string> {
    if |labels| < 2 then None else Some(labels[|labels| - 2] + "." + labels[|labels| - 1])
  }

  function RootOfClean(clean: string): Option<string> {
    if clean == "" || !NoSpace(clean) then None else RootOfLabels(Labels(clean))
  }

  function DomainRoot(host: string): Option<string> {
    RootOfClean(Clean(host))
  }

  function EmailDomain(email: string): Option<string> {
    if '@' !in email then None
    else
      var domain := Lower(Trim(AfterLast(email, '@')));
      if '.' in domain && NoSpace(domain) then Some(domain) else None
  }

  /** The domain of an address is what follows its last at sign, trimmed and in lower case, if it has a dot and no white
      space. */
  lemma EmailDomainMeans(user: string, d: string)
    requires '@' !in d
    ensures var c := Lower(Trim(d)); EmailDomain(user + "@" + d) == if '.' in c && NoSpace(c) then Some(c) else None
    ensures EmailDomain(d) == None
  {
    AfterLastAppend(user + "@", d, '@');
    assert (user + "@" + d)[|user|] == '@';
  }

  const ROOT_PREFIX := "domain-root:"
  const EMAIL_PREFIX := "email-domain:"

  function DeriveClusterKey(kind: IndicatorType, normalized: string): Option<DerivedClusterKey> {
    KeyFor(kind, DomainRoot(NormalizeDomain(normalized)), EmailDomain(normalized))
  }

  /** The key, given the domain root and the email domain read from the indicator. */
  function KeyFor(kind: IndicatorType, root: Option<string>, domain: Option<string>): Option<DerivedClusterKey> {
    match kind
    case DOMAIN | URL =>
      if root.Some?
      then Some(DerivedClusterKey(ROOT_PREFIX + root.value, SHARED_DOMAIN_ROOT, "Domain root \U{2014} " + root.value))
      else None
    case EMAIL =>
      if domain.Some?
      then Some(DerivedClusterKey(EMAIL_PREFIX + domain.value, SHARED_EMAIL, "Email domain \U{2014} " + domain.value))
      else None
    case _ => None
  }

  // ---------- the root of a host name ----------

  /** A label: not empty, no dot, no white space, no upper case. */
  predicate Label(s: string) {
    s != "" && '.' !in s && NoSpace(s) && IsLower(s)
  }

  lemma {:induction false} SplitLower(s: string, c: char)
    requires IsLower(s)
    ensures forall p :: p in Split(s, c) ==> IsLower(p)
  {
    if s != [] {
      var rest := Split(s[1..], c);
      SplitLower(s[1..], c);
      assert rest == [rest[0]] + rest[1..] && rest[0] in rest;
      assert IsLower([s[0]] + rest[0]);
    }
  }

  /** A root is exactly two labels. */
  lemma RootIsTwoLabels(host: string) returns (a: string, b: string)
    requires DomainRoot(host).Some?
    ensures Label(a) && Label(b) && DomainRoot(host) == Some(a + "." + b)
  {
    var clean := Clean(host);
    var labels := Labels(clean);
    LowerIsLower(Trim(host));
    SplitPieces(clean, '.');
    SplitLower(clean, '.');
    a, b := labels[|labels| - 2], labels[|labels| - 1];
  }

  lemma TwoLabels(a: string, b: string)
    requires Label(a) && Label(b)
    ensures Labels(a + "." + b) == [a, b]
  {
    assert a + ['.'] + b == a + "." + b;
    SplitJoin(a, b, '.');
    SplitWhole(a, '.');
    SplitWhole(b, '.');
    NonEmptyAppend([a], [b]);
  }

  lemma CleanIsClean(r: string)
    requires r != "" && NoSpace(r) && IsLower(r) && r[|r| - 1] != '.'
    ensures Clean(r) == r
  {
    assert Trim(r) == r by {
      assert !IsSpace(r[0]) && !IsSpace(r[|r| - 1]);
      TrimIsTrimmed(r);
    }
    assert Lower(r) == r by { LowerIsLower(r); }
  }

  /** The root of a root is itself. */
  lemma RootIdempotent(host: string)
    requires DomainRoot(host).Some?
    ensures DomainRoot(DomainRoot(host).value) == DomainRoot(host)
  {
    var a, b := RootIsTwoLabels(host);
    var r := a + "." + b;
    JoinedLabels(a, b);
    assert Clean(r) == r by { CleanIsClean(r); }
    assert Labels(r) == [a, b] by { TwoLabels(a, b); }
  }

  lemma JoinedLabels(a: string, b: string)
    requires Label(a) && Label(b)
    ensures var r := a + "." + b; r != "" && NoSpace(r) && IsLower(r) && r[|r| - 1] != '.'
  {
    assert b[|b| - 1] in b;
  }

  lemma {:induction false} TrimEndAppend(p: string, s: string)
    requires TrimEnd(s) != ""
    ensures TrimEnd(p + s) == p + TrimEnd(s)
  {
    if IsSpace(s[|s| - 1]) {
      TrimEndAppend(p, s[..|s| - 1]);
      assert (p + s)[..|p + s| - 1] == p + s[..|s| - 1];
    }
  }

  lemma {:induction false} StripDotsAppend(p: string, s: string)
    requires StripDots(s) != ""
    ensures StripDots(p + s) == p + StripDots(s)
  {
    if s[|s| - 1] == '.' {
      StripDotsAppend(p, s[..|s| - 1]);
      assert (p + s)[..|p + s| - 1] == p + s[..|s| - 1];
    }
  }

  /** Prefixing labels keeps the root, exactly when the host does not start with white space
      (which would end up in the middle of the name). */
  lemma PrefixKeepsRoot(p: string, host: string)
    requires NoSpace(p) && DomainRoot(host).Some?
    ensures DomainRoot(p + "." + host) == DomainRoot(host) <==> !IsSpace(host[0])
  {
    CleanOfPrefixed(p + ".", host);
    if !IsSpace(host[0]) {
      assert Clean(p + "." + host) == Lower(p) + "." + Clean(host) by {
        LowerAppend(p, ".");
        LowerDot();
      }
      LowerNoSpace(p);
      RootAfterDot(Lower(p), Clean(host));
    }
  }

  /** White space in front of a host is forgiven, until a label is put in front of it. */
  lemma SpaceLosesRoot(p: string, a: string, b: string)
    requires NoSpace(p) && Label(a) && Label(b)
    ensures DomainRoot(" " + (a + "." + b)) == Some(a + "." + b)
    ensures DomainRoot(p + "." + (" " + (a + "." + b))) != Some(a + "." + b)
  {
    var r := a + "." + b;
    JoinedLabels(a, b);
    assert Clean(" " + r) == r by {
      assert (" " + r)[1..] == r;
      assert Trim(" " + r) == Trim(r);
      CleanIsClean(r);
    }
    TwoLabels(a, b);
    PrefixKeepsRoot(p, " " + r);
  }

  lemma LowerDot()
    ensures Lower(".") == "."
  {
  }

  lemma {:induction false} LabelsAfterDot(p: string, clean: string)
    ensures Labels(p + "." + clean) == NonEmpty(Split(p, '.')) + Labels(clean)
  {
    assert p + ['.'] + clean == p + "." + clean;
    SplitJoin(p, clean, '.');
    NonEmptyAppend(Split(p, '.'), Split(clean, '.'));
  }

  lemma RootOfMoreLabels(front: seq<string>, labels: seq<string>)
    requires |labels| >= 2
    ensures RootOfLabels(front + labels) == RootOfLabels(labels)
  {
    var all := front + labels;
    assert all[|all| - 2] == labels[|labels| - 2] && all[|all| - 1] == labels[|labels| - 1];
  }

  lemma RootAfterDot(p: string, clean: string)
    requires NoSpace(p) && RootOfClean(clean).Some?
    ensures RootOfClean(p + "." + clean) == RootOfClean(clean)
  {
    var all := p + "." + clean;
    assert Labels(all) == NonEmpty(Split(p, '.')) + Labels(clean) by { LabelsAfterDot(p, clean); }
    assert all != "" && NoSpace(all) by { NoSpaceAfterDot(p, clean); }
    assert |Labels(clean)| >= 2;
    RootOfMoreLabels(NonEmpty(Split(p, '.')), Labels(clean));
  }

  lemma NoSpaceAfterDot(p: string, clean: string)
    requires NoSpace(p) && NoSpace(clean)
    ensures p + "." + clean != "" && NoSpace(p + "." + clean)
  {
  }

  lemma LowerNoSpace(s: string)
    requires NoSpace(s)
    ensures NoSpace(Lower(s))
  {
    forall i | 0 <= i < |s|
      ensures !IsSpace(Lower(s)[i])
    {
      LowerKeepsSpaces(s[i]);
    }
  }

  lemma {:induction false} CleanSplits(q: string, host: string)
    requires q != "" && NoSpace(q) && DomainRoot(host).Some?
    ensures TrimEnd(host) != "" && TrimEnd(host)[0] == host[0]
    ensures var e := Lower(TrimEnd(host));
      Clean(q + host) == Lower(q) + StripDots(e) && StripDots(e) != "" && StripDots(e)[0] == e[0]
  {
    var e := TrimEnd(host);
    EndOfTrim(host);
    TrimOfPrefixed(q, host);
    LowerAppend(q, e);
    EndsLower(e, Trim(host));
    StripKeepsStart(Lower(q), Lower(e), Lower(Trim(host)));
  }

  lemma SpaceInside(q: string, s: string)
    requires s != "" && IsSpace(s[0])
    ensures !NoSpace(q + s)
  {
    assert (q + s)[|q|] == s[0];
  }

  lemma CleanOfPrefixed(q: string, host: string)
    requires q != "" && NoSpace(q) && DomainRoot(host).Some?
    ensures !IsSpace(host[0]) ==> Clean(q + host) == Lower(q) + Clean(host)
    ensures IsSpace(host[0]) ==> !NoSpace(Clean(q + host))
  {
    CleanSplits(q, host);
    if !IsSpace(host[0]) {
      TrimStartNothing(host);
    } else {
      LowerKeepsSpaces(host[0]);
      SpaceInside(Lower(q), StripDots(Lower(TrimEnd(host))));
    }
  }

  lemma {:induction false} TrimOfPrefixed(q: string, host: string)
    requires q != "" && NoSpace(q) && TrimEnd(host) != ""
    ensures Trim(q + host) == q + TrimEnd(host)
  {
    TrimStartNothing(q + host);
    TrimEndAppend(q, host);
  }

  lemma {:induction false} TrimStartNothing(s: string)
    requires s != "" && !IsSpace(s[0])
    ensures TrimStart(s) == s
  {
  }

  lemma EndsLower(s: string, t: string)
    requires EndsWith(s, t)
    ensures EndsWith(Lower(s), Lower(t))
  {
    assert s == s[..|s| - |t|] + t;
    LowerAppend(s[..|s| - |t|], t);
  }

  /** Trimming at the end alone leaves everything that full trimming leaves, as a suffix. */
  lemma {:induction false} EndOfTrim(s: string)
    requires Trim(s) != ""
    ensures TrimEnd(s) != "" && EndsWith(TrimEnd(s), Trim(s)) && TrimEnd(s)[0] == s[0]
  {
    if IsSpace(s[0]) {
      EndOfTrim(s[1..]);
      TrimEndAppend([s[0]], s[1..]);
      assert [s[0]] + s[1..] == s;
    }
  }

  lemma {:induction false} StripKeepsStart(q: string, e: string, t: string)
    requires e != "" && EndsWith(e, t) && StripDots(t) != ""
    ensures StripDots(q + e) == q + StripDots(e) && StripDots(e) != "" && StripDots(e)[0] == e[0]
  {
    var front := e[..|e| - |t|];
    assert e == front + t;
    StripDotsAppend(front, t);
    StripDotsAppend(q, e);
  }

  // ---------- keys ----------

  /** The kind of match and the shared part that a signal's cluster stands for. */
  function Shared(kind: IndicatorType, normalized: string): Option<(MatchType, string)> {
    SharedFor(kind, DomainRoot(NormalizeDomain(normalized)), EmailDomain(normalized))
  }

  function SharedFor(kind: IndicatorType, root: Option<string>, domain: Option<string>): Option<(MatchType, string)> {
    if (kind == DOMAIN || kind == URL) && root.Some? then Some((SHARED_DOMAIN_ROOT, root.value))
    else if kind == EMAIL && domain.Some? then Some((SHARED_EMAIL, domain.value))
    else None
  }

  /** Two signals get the same key exactly when they share the same root or the same email domain. */
  lemma KeyIdentifiesShared(k1: IndicatorType, n1: string, k2: IndicatorType, n2: string)
    requires DeriveClusterKey(k1, n1).Some? && DeriveClusterKey(k2, n2).Some?
    ensures DeriveClusterKey(k1, n1).value.key == DeriveClusterKey(k2, n2).value.key <==>
            Shared(k1, n1) == Shared(k2, n2)
  {
    KeyEncodesShared(k1, n1);
    KeyEncodesShared(k2, n2);
    KeyOfInjective(Shared(k1, n1).value, Shared(k2, n2).value);
  }

  function KeyPrefix(m: MatchType): string {
    if m == SHARED_EMAIL then EMAIL_PREFIX else ROOT_PREFIX
  }

  /** A signal has a cluster key exactly when it has something to share. */
  lemma KeyIffShared(kind: IndicatorType, normalized: string)
    ensures DeriveClusterKey(kind, normalized).Some? <==> Shared(kind, normalized).Some?
  {
    PartsIff(kind, DomainRoot(NormalizeDomain(normalized)), EmailDomain(normalized));
  }

  lemma PartsIff(kind: IndicatorType, root: Option<string>, domain: Option<string>)
    ensures KeyFor(kind, root, domain).Some? <==> SharedFor(kind, root, domain).Some?
  {
  }

  lemma KeyEncodesShared(kind: IndicatorType, normalized: string)
    requires DeriveClusterKey(kind, normalized).Some?
    ensures Encodes(DeriveClusterKey(kind, normalized).value, Shared(kind, normalized))
  {
    PartsEncoded(kind, DomainRoot(NormalizeDomain(normalized)), EmailDomain(normalized));
  }

  ghost predicate Encodes(k: DerivedClusterKey, s: Option<(MatchType, string)>) {
    s.Some? && k.matchType == s.value.0 && k.key == KeyPrefix(s.value.0) + s.value.1
  }

  lemma PartsEncoded(kind: IndicatorType, root: Option<string>, domain: Option<string>)
    requires KeyFor(kind, root, domain).Some?
    ensures Encodes(KeyFor(kind, root, domain).value, SharedFor(kind, root, domain))
  {
  }

  lemma KeyOfInjective(s: (MatchType, string), t: (MatchType, string))
    ensures KeyPrefix(s.0) + s.1 == KeyPrefix(t.0) + t.1 <==> s == t
  {
    var a, b := KeyPrefix(s.0) + s.1, KeyPrefix(t.0) + t.1;
    assert a[0] == KeyPrefix(s.0)[0] && b[0] == KeyPrefix(t.0)[0];
    assert s.1 == a[|KeyPrefix(s.0)|..] && t.1 == b[|KeyPrefix(t.0)|..];
  }

  // ---------- reading a key back ----------

  datatype RiskLevel = LOW | MEDIUM | HIGH | CRITICAL

  function LevelForScore(score: int): RiskLevel {
    if score >= 86 then CRITICAL else if score >= 61 then HIGH else if score >= 31 then MEDIUM else LOW
  }

  datatype Pattern = DomainRootPattern(root: string) | EmailDomainPattern(domain: string)

  datatype SuggestedRule = SuggestedRule(name: string, pattern: Pattern, category: Option<string>, severity: RiskLevel,
          sourceClusterId: string)

  /** The columns of a cluster that a rule suggestion reads. */
  datatype ClusterRow = ClusterRow(id: string, clusterKey: string, matchType: MatchType, category: Option<string>,
          confidenceScore: int)

  function SuggestionForCluster(cluster: ClusterRow): SuggestedRule {
    var severity := LevelForScore(cluster.confidenceScore);
    match cluster.matchType
    case SHARED_DOMAIN_ROOT =>
      var root := StripPrefix(cluster.clusterKey, ROOT_PREFIX);
      SuggestedRule("Domain root pattern \U{2014} " + root, DomainRootPattern(root), cluster.category, severity, cluster.id)
    case SHARED_EMAIL =>
      var domain := StripPrefix(cluster.clusterKey, EMAIL_PREFIX);
      SuggestedRule("Email domain pattern \U{2014} " + domain, EmailDomainPattern(domain), cluster.category,
        severity, cluster.id)
  }

  /** What a suggestion takes over from its cluster, its confidence as a level. */
  lemma SuggestionOfCluster(cluster: ClusterRow)
    ensures var s, score := SuggestionForCluster(cluster), cluster.confidenceScore;
      && s.category == cluster.category && s.sourceClusterId == cluster.id
      && (s.severity == CRITICAL <==> 86 <= score) && (s.severity == HIGH <==> 61 <= score < 86)
      && (s.severity == MEDIUM <==> 31 <= score < 61) && (s.severity == LOW <==> score < 31)
  {
  }

  /** The suggestion recovers exactly the root or the email domain that the key encodes. */
  lemma SuggestionRecoversShared(kind: IndicatorType, normalized: string, cluster: ClusterRow)
    requires DeriveClusterKey(kind, normalized).Some?
    requires cluster.clusterKey == DeriveClusterKey(kind, normalized).value.key
    requires cluster.matchType == DeriveClusterKey(kind, normalized).value.matchType
    ensures Shared(kind, normalized) == Some(
      match SuggestionForCluster(cluster).pattern
      case DomainRootPattern(root) => (SHARED_DOMAIN_ROOT, root)
      case EmailDomainPattern(domain) => (SHARED_EMAIL, domain))
  {
    KeyEncodesShared(kind, normalized);
    var s := Shared(kind, normalized).value;
    var p := KeyPrefix(s.0);
    assert (p + s.1)[..|p|] == p && (p + s.1)[|p|..] == s.1;
  }
}
