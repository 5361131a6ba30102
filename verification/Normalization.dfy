/** Indicator normalization: what decides that two reports name the same indicator. */
module Normalization {
  import opened AsciiText

  datatype IndicatorType =
    | PHONE | EMAIL | DOMAIN | URL | CRYPTO_WALLET | SCAM_PHRASE | FAKE_COMPANY | SOCIAL_PROFILE | OTHER

  function NormalizePhone(raw: string): string {
    var trimmed := Trim(raw);
    var digits := Digits(trimmed);
    if StartsWith(trimmed, "+") then "+" + digits
    else if |digits| == 10 then "+1" + digits
    else "+" + digits
  }

  /** The text before the first `c`. */
  function Before(s: string, c: char): (r: string)
    ensures r <= s && c !in r
  {
    if s == [] || s[0] == c then [] else [s[0]] + Before(s[1..], c)
  }

  /** The text after the last `c`, or all of it. */
  function AfterLast(s: string, c: char): (r: string)
    ensures |r| <= |s| && r == s[|s| - |r|..] && c !in r
  {
    if s == [] then []
    else if s[|s| - 1] == c then []
    else AfterLast(s[..|s| - 1], c) + [s[|s| - 1]]
  }

  predicate SchemeChar(c: char) {
    'a' <= c <= 'z' || IsDigit(c) || c == '+' || c == '.' || c == '-'
  }

  function SchemeRest(s: string): string {
    if s != [] && SchemeChar(s[0]) then SchemeRest(s[1..]) else s
  }

  function StripScheme(v: string): string {
    if v != [] && 'a' <= v[0] <= 'z' && StartsWith(SchemeRest(v[1..]), "://") then SchemeRest(v[1..])[3..] else v
  }

  function StripPrefix(v: string, p: string): string {
    if StartsWith(v, p) then v[|p|..] else v
  }

  function StripOneDot(v: string): string {
    if EndsWith(v, ".") then v[..|v| - 1] else v
  }

  function NormalizeDomain(raw: string): string {
    StripOneDot(StripPrefix(HostOf(StripScheme(Lower(Trim(raw)))), "www."))
  }

  /** The host of an address without its scheme. */
  function HostOf(v: string): string {
    Before(AfterLast(Before(Before(Before(v, '/'), '?'), '#'), '@'), ':')
  }

  function StripSlashes(v: string): string {
    if v != [] && v[|v| - 1] == '/' then StripSlashes(v[..|v| - 1]) else v
  }

  function NormalizeUrl(raw: string): string {
    StripSlashes(Lower(Trim(raw)))
  }

  function NormalizeEmail(raw: string): string {
    Lower(Trim(raw))
  }

  predicate IsEvm(v: string) {
    |v| >= 2 && v[0] == '0' && (v[1] == 'x' || v[1] == 'X')
  }

  function NormalizeWallet(raw: string): string {
    var v := Trim(raw);
    if IsEvm(v) then Lower(v) else v
  }

  /** `replace(/\s+/g, ' ')`. */
  function Collapse(s: string): (r: string)
    decreases |s|
  {
    if s == [] then []
    else if IsSpace(s[0]) then " " + Collapse(TrimStart(s))
    else [s[0]] + Collapse(s[1..])
  }

  function NormalizePhrase(raw: string): string {
    Collapse(Lower(Trim(raw)))
  }

  function NormalizeIndicator(kind: IndicatorType, value: string): string {
    match kind
    case PHONE => NormalizePhone(value)
    case DOMAIN => NormalizeDomain(value)
    case URL => NormalizeUrl(value)
    case EMAIL => NormalizeEmail(value)
    case CRYPTO_WALLET => NormalizeWallet(value)
    case SCAM_PHRASE => NormalizePhrase(value)
    case _ => Lower(Trim(value))
  }

  // ---------- idempotence ----------

  lemma PhoneIdempotent(raw: string)
    ensures NormalizePhone(NormalizePhone(raw)) == NormalizePhone(raw)
  {
    var trimmed := Trim(raw);
    var digits := Digits(trimmed);
    DigitsAll(trimmed);
    if !StartsWith(trimmed, "+") && |digits| == 10 {
      PhoneFixed("1" + digits);
      assert "+1" + digits == "+" + ("1" + digits);
    } else {
      PhoneFixed(digits);
    }
  }

  lemma PhoneFixed(digits: string)
    requires AllDigits(digits)
    ensures NormalizePhone("+" + digits) == "+" + digits
  {
    var r := "+" + digits;
    assert Trim(r) == r by {
      assert r[0] == '+' && (digits == [] || r[|r| - 1] == digits[|digits| - 1]);
      TrimIsTrimmed(r);
    }
    assert Digits(r) == digits by {
      assert r[1..] == digits;
      DigitsAll(digits);
    }
    assert r[..1] == "+";
  }

  lemma EmailIdempotent(raw: string)
    ensures NormalizeEmail(NormalizeEmail(raw)) == NormalizeEmail(raw)
  {
    TrimIsTrimmed(raw);
    TrimmedLower(Trim(raw));
    TrimIsTrimmed(Lower(Trim(raw)));
    LowerIdempotent(Trim(raw));
  }

  lemma WalletIdempotent(raw: string)
    ensures NormalizeWallet(NormalizeWallet(raw)) == NormalizeWallet(raw)
  {
    var v := Trim(raw);
    TrimIsTrimmed(raw);
    TrimmedLower(v);
    TrimIsTrimmed(v);
    TrimIsTrimmed(Lower(v));
    LowerIdempotent(v);
  }

  /** White space is single blanks only. */
  predicate SingleBlanks(s: string) {
    forall i :: 0 <= i < |s| && IsSpace(s[i]) ==> s[i] == ' ' && (i + 1 < |s| ==> !IsSpace(s[i + 1]))
  }

  lemma ConsBlank(c: char, s: string)
    requires SingleBlanks(s) && (IsSpace(c) ==> c == ' ' && (s != [] ==> !IsSpace(s[0])))
    ensures SingleBlanks([c] + s)
  {
    var t := [c] + s;
    forall i | 0 <= i < |t| && IsSpace(t[i])
      ensures t[i] == ' ' && (i + 1 < |t| ==> !IsSpace(t[i + 1]))
    {
      if i > 0 { assert t[i] == s[i - 1]; }
    }
  }

  lemma {:induction false} TrimStartKeepsEnd(s: string)
    requires s != [] && !IsSpace(s[|s| - 1])
    ensures var t := TrimStart(s); t != [] && t[|t| - 1] == s[|s| - 1]
  {
    if IsSpace(s[0]) { TrimStartKeepsEnd(s[1..]); }
  }

  lemma {:induction false} CollapseBlanks(s: string)
    ensures SingleBlanks(Collapse(s))
    ensures s != [] ==> Collapse(s) != [] && (IsSpace(Collapse(s)[0]) <==> IsSpace(s[0]))
    decreases |s|
  {
    if s != [] {
      if IsSpace(s[0]) {
        CollapseBlanks(TrimStart(s));
        ConsBlank(' ', Collapse(TrimStart(s)));
      } else {
        CollapseBlanks(s[1..]);
        ConsBlank(s[0], Collapse(s[1..]));
      }
    }
  }

  lemma {:induction false} CollapseKeepsEnd(s: string)
    requires s == [] || !IsSpace(s[|s| - 1])
    ensures s != [] ==> Collapse(s) != [] && !IsSpace(Collapse(s)[|Collapse(s)| - 1])
    decreases |s|
  {
    if s != [] {
      if IsSpace(s[0]) {
        TrimStartKeepsEnd(s);
        CollapseKeepsEnd(TrimStart(s));
      } else {
        CollapseKeepsEnd(s[1..]);
      }
    }
  }

  lemma {:induction false} CollapseNothing(s: string)
    requires SingleBlanks(s)
    ensures Collapse(s) == s
    decreases |s|
  {
    if s != [] {
      CollapseNothing(s[1..]);
      assert s == [s[0]] + s[1..];
      if IsSpace(s[0]) { assert TrimStart(s) == s[1..]; }
    }
  }

  lemma {:induction false} CollapseLower(s: string)
    requires IsLower(s)
    ensures IsLower(Collapse(s))
    decreases |s|
  {
    if s != [] {
      TrimStartSuffix(s);
      CollapseLower(if IsSpace(s[0]) then TrimStart(s) else s[1..]);
    }
  }

  lemma PhraseIdempotent(raw: string)
    ensures NormalizePhrase(NormalizePhrase(raw)) == NormalizePhrase(raw)
    ensures SingleBlanks(NormalizePhrase(raw)) && Trimmed(NormalizePhrase(raw))
  {
    var v := Lower(Trim(raw));
    TrimIsTrimmed(raw);
    TrimmedLower(Trim(raw));
    LowerIsLower(Trim(raw));
    CollapseBlanks(v);
    CollapseKeepsEnd(v);
    CollapseLower(v);
    var r := Collapse(v);
    TrimIsTrimmed(r);
    LowerIsLower(r);
    CollapseNothing(r);
  }

  // ---------- case does not matter, except for wallets ----------

  lemma {:induction false} DigitsLower(s: string)
    ensures Digits(Lower(s)) == Digits(s)
  {
    if s != [] {
      LowerKeepsSpaces(s[0]);
      assert Lower(s)[1..] == Lower(s[1..]);
      DigitsLower(s[1..]);
    }
  }

  /** Every normalizer but the wallet's gives the same result for a text and its lower case. */
  lemma NormalizeIgnoresCase(kind: IndicatorType, s: string)
    requires kind != CRYPTO_WALLET
    ensures NormalizeIndicator(kind, Lower(s)) == NormalizeIndicator(kind, s)
  {
    LowerTrim(s);
    LowerIdempotent(Trim(s));
    if kind == PHONE {
      var t := Trim(s);
      DigitsLower(t);
      if t != [] { assert Lower(t)[0] == '+' <==> t[0] == '+'; }
      assert StartsWith(Lower(t), "+") <==> StartsWith(t, "+");
    }
  }

  lemma EvmByLower(s: string, t: string)
    requires Lower(s) == Lower(t) && IsEvm(s)
    ensures IsEvm(t)
  {
    assert |s| == |t| && Lower(t)[0] == Lower(s)[0] && Lower(t)[1] == Lower(s)[1];
    assert LowerChar(t[0]) == '0' && LowerChar(t[1]) == 'x';
  }

  /** A wallet written in the other case is the same wallet, exactly when it is an EVM address or has no letters. */
  lemma WalletCaseExact(s: string)
    requires Trimmed(s)
    ensures NormalizeWallet(OtherCase(s)) == NormalizeWallet(s) <==> IsEvm(s) || Lower(s) == Upper(s)
  {
    var t := OtherCase(s);
    OtherCaseDiffers(s);
    TrimmedByLower(s, t);
    TrimIsTrimmed(s);
    TrimIsTrimmed(t);
    if IsEvm(s) { EvmByLower(s, t); }
    if IsEvm(t) { EvmByLower(t, s); }
  }

  // ---------- what the normalizers forget, and what they keep ----------

  /** Collapsing white space keeps the first piece and the words after it. */
  lemma {:induction false} CollapsePieces(s: string)
    ensures Pieces(Collapse(s))[0] == Pieces(s)[0]
    ensures NonEmpty(Pieces(Collapse(s))[1..]) == NonEmpty(Pieces(s)[1..])
    decreases |s|
  {
    if s != [] {
      var t := if IsSpace(s[0]) then TrimStart(s) else s[1..];
      CollapsePieces(t);
      if IsSpace(s[0]) {
        TrimStartWords(s[1..]);
        HeadWords(Collapse(t), t);
        assert (" " + Collapse(t))[1..] == Collapse(t);
      } else {
        assert ([s[0]] + Collapse(t))[1..] == Collapse(t);
      }
    }
  }

  lemma {:induction false} HeadWords(s: string, t: string)
    requires Pieces(s)[0] == Pieces(t)[0] && NonEmpty(Pieces(s)[1..]) == NonEmpty(Pieces(t)[1..])
    ensures Words(s) == Words(t)
  {
  }

  lemma {:induction false} CollapseWords(s: string)
    ensures Words(Collapse(s)) == Words(s)
  {
    CollapsePieces(s);
    HeadWords(Collapse(s), s);
  }

  /** The text up to its first white space. */
  function FirstSpace(s: string): (k: nat)
    ensures k <= |s| && NoSpace(s[..k]) && (k < |s| ==> IsSpace(s[k]))
  {
    if s == [] || IsSpace(s[0]) then 0 else 1 + FirstSpace(s[1..])
  }

  /** A trimmed text whose white space is single blanks is its words, joined. */
  lemma {:induction false} CleanIsWords(s: string)
    requires SingleBlanks(s) && Trimmed(s)
    ensures JoinWords(Words(s)) == s
    decreases |s|
  {
    var k := FirstSpace(s);
    if k == |s| {
      assert s[..k] == s;
      OneWord(s);
    } else {
      var a, b := s[..k], s[k + 1..];
      assert s == a + [s[k]] + b && a != "" && s[k] == ' ';
      CleanTail(s, k);
      CleanIsWords(b);
      OneWord(a);
      WordsJoin(a, s[k], b);
      assert Words(s)[1..] == Words(b);
    }
  }

  lemma CleanTail(s: string, k: nat)
    requires SingleBlanks(s) && Trimmed(s) && k < |s| && IsSpace(s[k])
    ensures var b := s[k + 1..]; b != "" && SingleBlanks(b) && Trimmed(b)
  {
    var b := s[k + 1..];
    forall i | 0 <= i < |b| && IsSpace(b[i])
      ensures b[i] == ' ' && (i + 1 < |b| ==> !IsSpace(b[i + 1]))
    {
      assert b[i] == s[k + 1 + i];
    }
  }

  lemma TrimBlanks(s: string)
    requires SingleBlanks(s)
    ensures SingleBlanks(Trim(s))
  {
    TrimStartSuffix(s);
    var t := TrimStart(s);
    assert forall i :: 0 <= i < |t| ==> t[i] == s[|s| - |t| + i];
    PrefixBlanks(t);
  }

  lemma {:induction false} PrefixBlanks(t: string)
    requires SingleBlanks(t)
    ensures SingleBlanks(TrimEnd(t))
  {
    if t != [] && IsSpace(t[|t| - 1]) { PrefixBlanks(t[..|t| - 1]); }
  }

  /** A normalized phrase is the words of the phrase in lower case, with single blanks between them; so two phrases are the
      same exactly when they have the same words, up to case. */
  lemma PhraseIsWords(raw: string)
    ensures NormalizePhrase(raw) == JoinWords(Words(Lower(raw))) && Words(NormalizePhrase(raw)) == Words(Lower(raw))
  {
    LowerTrim(raw);
    TrimWords(Lower(raw));
    CollapseWords(Lower(Trim(raw)));
    PhraseIdempotent(raw);
    CleanIsWords(NormalizePhrase(raw));
  }

  lemma SamePhrase(r: string, s: string)
    ensures NormalizeIndicator(SCAM_PHRASE, r) == NormalizeIndicator(SCAM_PHRASE, s) <==> Words(Lower(r)) == Words(Lower(s))
  {
    PhraseIsWords(r);
    PhraseIsWords(s);
  }

  lemma {:induction false} DigitsAppend(a: string, b: string)
    ensures Digits(a + b) == Digits(a) + Digits(b)
  {
    if a == [] {
      assert a + b == b;
    } else {
      DigitsAppend(a[1..], b);
      var one := if IsDigit(a[0]) then [a[0]] else [];
      assert Digits(a + b) == one + Digits(a[1..] + b) by { assert (a + b)[1..] == a[1..] + b; }
      AssociativeText(one, Digits(a[1..]), Digits(b));
    }
  }

  lemma {:induction false} DigitsTrimStart(s: string)
    ensures Digits(TrimStart(s)) == Digits(s)
  {
    if s != [] && IsSpace(s[0]) { DigitsTrimStart(s[1..]); }
  }

  lemma {:induction false} DigitsTrimEnd(s: string)
    ensures Digits(TrimEnd(s)) == Digits(s)
  {
    if s != [] && IsSpace(s[|s| - 1]) {
      DigitsTrimEnd(s[..|s| - 1]);
      DigitsAppend(s[..|s| - 1], s[|s| - 1..]);
      assert s[..|s| - 1] + s[|s| - 1..] == s;
      assert Digits(s[|s| - 1..][1..]) == [];
    }
  }

  lemma {:induction false} DigitsTrim(s: string)
    ensures Digits(Trim(s)) == Digits(s)
  {
    DigitsTrimStart(s);
    DigitsTrimEnd(TrimStart(s));
  }

  /** The first character that is no white space is a plus. */
  predicate HasPlus(s: string) {
    TrimStart(s) != "" && TrimStart(s)[0] == '+'
  }

  lemma PlusIsPlus(s: string)
    ensures StartsWith(Trim(s), "+") <==> HasPlus(s)
  {
    var t := TrimStart(s);
    var r := TrimEnd(t);
    if HasPlus(s) { TrimEndKeepsHead(t); }
    assert r != "" ==> r[..1] == [r[0]];
  }

  lemma {:induction false} TrimEndKeepsHead(t: string)
    requires t != "" && !IsSpace(t[0])
    ensures TrimEnd(t) != "" && TrimEnd(t)[0] == t[0]
  {
    if IsSpace(t[|t| - 1]) { TrimEndKeepsHead(t[..|t| - 1]); }
  }

  /** A number is a plus and its digits, after a 1 if there are ten of them and no plus is given. */
  lemma {:induction false} PhoneMeans(raw: string)
    ensures NormalizePhone(raw) == "+" + ((if !HasPlus(raw) && |Digits(raw)| == 10 then "1" else "") + Digits(raw))
  {
    DigitsTrim(raw);
    PlusIsPlus(raw);
    OneAfterPlus(Digits(raw));
  }

  lemma OneAfterPlus(d: string)
    ensures "+1" + d == "+" + ("1" + d) && "+" + ("" + d) == "+" + d
  {
    assert "" + d == d;
  }

  lemma {:induction false} TrimStartAppend(a: string, b: string)
    requires TrimStart(a) != ""
    ensures TrimStart(a + b) == TrimStart(a) + b
  {
    if IsSpace(a[0]) {
      assert (a + b)[1..] == a[1..] + b;
      TrimStartAppend(a[1..], b);
    }
  }

  lemma {:induction false} PlusAtStart(a: string, b: string)
    requires TrimStart(a) != ""
    ensures HasPlus(a + b) <==> HasPlus(a)
  {
    TrimStartAppend(a, b);
  }

  lemma {:induction false} DigitsSkip(a: string, c: char, b: string)
    requires !IsDigit(c)
    ensures Digits(a + ([c] + b)) == Digits(a + b)
  {
    DigitsAppend(a, [c] + b);
    DigitsAppend([c], b);
    DigitsAppend(a, b);
    assert Digits([c]) == "";
  }

  /** What is no digit is forgotten, anywhere after the start. */
  lemma {:induction false} PhoneForgets(a: string, c: char, b: string)
    requires TrimStart(a) != "" && !IsDigit(c)
    ensures NormalizeIndicator(PHONE, a + ([c] + b)) == NormalizeIndicator(PHONE, a + b)
  {
    PlusAtStart(a, [c] + b);
    PlusAtStart(a, b);
    DigitsSkip(a, c, b);
    PhoneMeans(a + ([c] + b));
    PhoneMeans(a + b);
  }

  /** Digits alone are kept. */
  lemma PhoneOfDigits(d: string)
    requires AllDigits(d)
    ensures NormalizeIndicator(PHONE, "+" + d) == "+" + d
    ensures NormalizeIndicator(PHONE, d) == if |d| == 10 then "+1" + d else "+" + d
  {
    DigitsAll(d);
    PhoneFixed(d);
    PhoneMeans(d);
    OneAfterPlus(d);
    NoPlus(d);
  }

  lemma NoPlus(d: string)
    requires AllDigits(d)
    ensures !HasPlus(d)
  {
    assert d != "" ==> IsDigit(d[0]);
  }

  /** Two email addresses are the same exactly when they are, trimmed, the same up to case; so are companies, profiles and
      other indicators. */
  lemma SameEmail(kind: IndicatorType, r: string, s: string)
    requires kind in {EMAIL, FAKE_COMPANY, SOCIAL_PROFILE, OTHER}
    ensures NormalizeIndicator(kind, r) == NormalizeIndicator(kind, s) <==> SameUpToCase(Trim(r), Trim(s))
  {
    LowerSame(Trim(r), Trim(s));
  }

  /** Two wallets are the same exactly when they are, trimmed, the same text, or the same EVM address up to case. */
  lemma SameWallet(r: string, s: string)
    ensures NormalizeIndicator(CRYPTO_WALLET, r) == NormalizeIndicator(CRYPTO_WALLET, s) <==>
            Trim(r) == Trim(s) || (IsEvm(Trim(r)) && SameUpToCase(Trim(r), Trim(s)))
  {
    var a, b := Trim(r), Trim(s);
    LowerSame(a, b);
    LowerIdempotent(a);
    LowerIdempotent(b);
    if IsEvm(a) && Lower(a) == b { EvmByLower(a, b); }
    if IsEvm(a) && Lower(a) == Lower(b) { EvmByLower(a, b); }
    if IsEvm(b) && Lower(b) == a { EvmByLower(b, a); }
  }

  predicate AllSlashes(s: string) {
    forall i :: 0 <= i < |s| ==> s[i] == '/'
  }

  /** A URL loses, trimmed and in lower case, its slashes at the end and nothing else. */
  lemma UrlMeans(raw: string)
    ensures var u, v := NormalizeIndicator(URL, raw), Lower(Trim(raw));
      u <= v && AllSlashes(v[|u|..]) && (u != "" ==> u[|u| - 1] != '/')
  {
    SlashesStripped(Lower(Trim(raw)));
  }

  lemma {:induction false} SlashesStripped(v: string)
    ensures var u := StripSlashes(v); u <= v && AllSlashes(v[|u|..]) && (u != "" ==> u[|u| - 1] != '/')
  {
    if v != [] && v[|v| - 1] == '/' {
      var w, u := v[..|v| - 1], StripSlashes(v);
      SlashesStripped(w);
      assert forall i :: |u| <= i < |w| ==> v[i] == w[|u|..][i - |u|];
    }
  }

  // ---------- the parts of an address that a domain forgets ----------

  predicate NoTail(s: string) {
    forall i :: 0 <= i < |s| ==> s[i] !in {'/', '?', '#'}
  }

  /** Nothing, or a scheme with its colon and slashes. */
  predicate SchemePart(s: string) {
    s == "" ||
    (|s| > 3 && s[|s| - 3..] == "://" && 'a' <= s[0] <= 'z' && forall i :: 0 <= i < |s| - 3 ==> SchemeChar(s[i]))
  }

  /** Nothing, or a text that ends with an at sign. */
  predicate UserPart(s: string) {
    NoTail(s) && (s == "" || s[|s| - 1] == '@')
  }

  predicate HostPart(s: string) {
    NoTail(s) && '@' !in s && ':' !in s
  }

  /** Nothing, or a colon and at least one more character. */
  predicate PortPart(s: string) {
    NoTail(s) && '@' !in s && (s == "" || (|s| > 1 && s[0] == ':'))
  }

  /** Nothing, or a path, a query or a fragment. */
  predicate TailPart(s: string) {
    s == "" || s[0] in {'/', '?', '#'}
  }

  lemma {:induction false} BeforeAppend(a: string, b: string, c: char)
    requires c !in a
    ensures Before(a + b, c) == a + Before(b, c)
  {
    if a == [] {
      assert a + b == b;
    } else {
      assert (a + b)[1..] == a[1..] + b && (a + b)[0] == a[0];
      BeforeAppend(a[1..], b, c);
    }
  }

  /** The tail is cut off. */
  lemma {:induction false} TailForgotten(core: string, tail: string)
    requires NoTail(core) && TailPart(tail)
    ensures Before(Before(Before(core + tail, '/'), '?'), '#') == core
  {
    var t1 := Before(tail, '/');
    var t2 := Before(t1, '?');
    BeforeAppend(core, tail, '/');
    BeforeAppend(core, t1, '?');
    BeforeAppend(core, t2, '#');
    assert tail != "" ==> tail[0] == '/' || tail[0] == '?' || tail[0] == '#';
    assert Before(t2, '#') == "";
  }

  lemma {:induction false} AfterLastAppend(a: string, b: string, c: char)
    requires c !in b && (a == "" || a[|a| - 1] == c)
    ensures AfterLast(a + b, c) == b
  {
    if b == [] {
      assert a + b == a;
    } else {
      var n := |b| - 1;
      AfterLastAppend(a, b[..n], c);
      LastOfAppend(a, b);
      AfterLastStep(a + b, c);
      assert b == b[..n] + [b[n]];
    }
  }

  lemma {:induction false} AfterLastStep(s: string, c: char)
    requires s != [] && s[|s| - 1] != c
    ensures AfterLast(s, c) == AfterLast(s[..|s| - 1], c) + [s[|s| - 1]]
  {
  }

  lemma LastOfAppend(a: string, b: string)
    requires b != []
    ensures var s := a + b; s[..|s| - 1] == a + b[..|b| - 1] && s[|s| - 1] == b[|b| - 1]
  {
  }

  lemma {:induction false} SchemeRestAppend(a: string, b: string)
    requires (forall i :: 0 <= i < |a| ==> SchemeChar(a[i])) && (b == "" || !SchemeChar(b[0]))
    ensures SchemeRest(a + b) == b
  {
    if a == [] {
      assert a + b == b;
    } else {
      assert (a + b)[1..] == a[1..] + b;
      SchemeRestAppend(a[1..], b);
    }
  }

  lemma SchemeForgotten(scheme: string, v: string)
    requires scheme != "" && SchemePart(scheme)
    ensures StripScheme(scheme + v) == v
  {
    var a := scheme[1..|scheme| - 3];
    assert scheme == [scheme[0]] + a + "://";
    assert (scheme + v)[1..] == a + ("://" + v);
    SchemeRestAppend(a, "://" + v);
    assert ("://" + v)[..3] == "://" && ("://" + v)[3..] == v;
  }

  lemma {:induction false} SchemeRestAt(s: string) returns (k: nat)
    ensures k <= |s| && SchemeRest(s) == s[k..] && forall i :: 0 <= i < k ==> SchemeChar(s[i])
  {
    if s != [] && SchemeChar(s[0]) {
      k := SchemeRestAt(s[1..]);
      assert s[1..][k..] == s[k + 1..];
      assert forall i :: 1 <= i < k + 1 ==> s[i] == s[1..][i - 1];
      k := k + 1;
    } else {
      k := 0;
    }
  }

  /** An address without a scheme is not taken to have one. */
  lemma NoScheme(user: string, host: string, port: string, tail: string)
    requires UserPart(user) && HostPart(host) && PortPart(port) && TailPart(tail)
    ensures var v := user + host + port + tail; StripScheme(v) == v
  {
    var v := user + host + port + tail;
    if v != [] && StartsWith(SchemeRest(v[1..]), "://") {
      var k := SchemeRestAt(v[1..]);
      var n := k + 1;
      assert v[1..][k..] == v[n..];
      assert v[n] == v[n..][..3][0] == ':' && v[n + 1] == v[n..][..3][1] == '/';
      assert forall i :: 1 <= i < n ==> v[i] == v[1..][i - 1] && SchemeChar(v[i]);
      NoColonSlash(user, host, port, tail, n);
    }
  }

  lemma NoColonSlash(user: string, host: string, port: string, tail: string, n: nat)
    requires UserPart(user) && HostPart(host) && PortPart(port) && TailPart(tail)
    requires var v := user + host + port + tail;
      0 < n && n + 1 < |v| && v[n] == ':' && v[n + 1] == '/' && forall i :: 1 <= i < n ==> SchemeChar(v[i])
    ensures !('a' <= (user + host + port + tail)[0] <= 'z')
  {
    var v := user + host + port + tail;
    var portAt, tailAt := |user| + |host|, |user| + |host| + |port|;
    PartsAt(user, host, port, tail, n);
    PartsAt(user, host, port, tail, n + 1);
    if portAt < |v| { PartsAt(user, host, port, tail, portAt); }
    if portAt + 1 < |v| { PartsAt(user, host, port, tail, portAt + 1); }
    if tailAt < |v| { PartsAt(user, host, port, tail, tailAt); }
  }

  lemma PartsAt(user: string, host: string, port: string, tail: string, i: nat)
    requires var v := user + host + port + tail; i < |v|
    ensures var v := user + host + port + tail;
      v[i] == if i < |user| then user[i]
              else if i < |user| + |host| then host[i - |user|]
              else if i < |user| + |host| + |port| then port[i - |user| - |host|]
              else tail[i - |user| - |host| - |port|]
  {
  }

  lemma SchemeGone(scheme: string, user: string, host: string, port: string, tail: string)
    requires SchemePart(scheme) && UserPart(user) && HostPart(host) && PortPart(port) && TailPart(tail)
    ensures var rest := user + host + port + tail; StripScheme(scheme + rest) == rest
  {
    var rest := user + host + port + tail;
    if scheme == "" {
      NoScheme(user, host, port, tail);
      assert scheme + rest == rest;
    } else {
      SchemeForgotten(scheme, rest);
    }
  }

  lemma {:induction false} HostLeft(user: string, host: string, port: string)
    requires UserPart(user) && HostPart(host) && PortPart(port)
    ensures Before(AfterLast(user + (host + port), '@'), ':') == host
  {
    AfterLastAppend(user, host + port, '@');
    BeforeAppend(host, port, ':');
    assert Before(port, ':') == "";
  }

  /** A domain is the host of an address in lower case, without one leading "www." and one trailing dot: scheme, user,
      port, path, query and fragment are forgotten. */
  lemma DomainIsHost(raw: string, scheme: string, user: string, host: string, port: string, tail: string)
    requires SchemePart(scheme) && UserPart(user) && HostPart(host) && PortPart(port) && TailPart(tail)
    requires Lower(Trim(raw)) == scheme + (user + host + port + tail)
    ensures NormalizeDomain(raw) == StripOneDot(StripPrefix(host, "www."))
  {
    SchemeGone(scheme, user, host, port, tail);
    HostFound(user, host, port, tail);
  }

  lemma HostFound(user: string, host: string, port: string, tail: string)
    requires UserPart(user) && HostPart(host) && PortPart(port) && TailPart(tail)
    ensures HostOf(user + host + port + tail) == host
  {
    AssociativeText(user, host, port);
    TailForgotten(user + (host + port), tail);
    HostLeft(user, host, port);
  }

  lemma WwwGone(www: string, h: string, dot: string)
    requires www == "www." || (www == "" && !StartsWith(h + dot, "www."))
    requires dot == "." || (dot == "" && !EndsWith(h, "."))
    ensures StripOneDot(StripPrefix(www + (h + dot), "www.")) == h
  {
    var host := www + (h + dot);
    if www == "www." {
      assert host[..4] == "www." && host[4..] == h + dot;
    } else {
      assert host == h + dot;
    }
    if dot == "." {
      assert (h + dot)[|h|..] == "." && (h + dot)[..|h|] == h;
    } else {
      assert h + dot == h;
    }
  }

  /** In particular with and without "www." and the dot. */
  lemma WwwForgotten(raw: string, scheme: string, user: string, www: string, h: string, dot: string, port: string,
                     tail: string)
    requires SchemePart(scheme) && UserPart(user) && HostPart(www + (h + dot)) && PortPart(port) && TailPart(tail)
    requires www == "www." || (www == "" && !StartsWith(h + dot, "www."))
    requires dot == "." || (dot == "" && !EndsWith(h, "."))
    requires Lower(Trim(raw)) == scheme + (user + (www + (h + dot)) + port + tail)
    ensures NormalizeIndicator(DOMAIN, raw) == h
  {
    DomainIsHost(raw, scheme, user, www + (h + dot), port, tail);
    WwwGone(www, h, dot);
  }
}
