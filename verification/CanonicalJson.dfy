/** The canonical JSON printer that feeds the evidence hash.

  A string of the source language is a sequence of UTF-16 code units, so lone
  surrogates, surrogate pairs and code-unit key order are all part of the model. */
module CanonicalJson {

  type CodeUnit = n: nat | n < 0x1_0000
  type Text = seq<CodeUnit>

  const QUOTE: CodeUnit := 34
  const PLUS: CodeUnit := 43
  const COMMA: CodeUnit := 44
  const MINUS: CodeUnit := 45
  const POINT: CodeUnit := 46
  const COLON: CodeUnit := 58
  const LBRACKET: CodeUnit := 91
  const BACKSLASH: CodeUnit := 92
  const RBRACKET: CodeUnit := 93
  const LBRACE: CodeUnit := 123
  const RBRACE: CodeUnit := 125
  const NULL_TEXT: Text := [110, 117, 108, 108]
  const TRUE_TEXT: Text := [116, 114, 117, 101]
  const FALSE_TEXT: Text := [102, 97, 108, 115, 101]

  // ---------- values ----------

  datatype Field = Field(key: Text, value: Json)

  /** A value handed to the printer. A finite number is represented by the text that
      Number-to-string gives it (the two zeros share the text "0"); every other
      number is NonFinite. Object fields are kept in property order. */
  datatype Json =
    | Undefined
    | Null
    | Bool(b: bool)
    | Num(text: Text)
    | NonFinite
    | Str(s: Text)
    | Arr(items: seq<Json>)
    | Obj(fields: seq<Field>)

  predicate Digit(c: CodeUnit) {
    48 <= c <= 57
  }

  /** Where the digits end that stand at k. */
  function DigitsEnd(t: Text, k: nat): (n: nat)
    requires k <= |t|
    ensures k <= n <= |t|
    decreases |t| - k
  {
    if k < |t| && Digit(t[k]) then DigitsEnd(t, k + 1) else k
  }

  /** Where the number ends that stands at the start of the text (section 6 of RFC 8259); 0 if there is none. */
  function NumberEnd(t: Text): (n: nat)
    ensures n <= |t|
  {
    var n := IntegerEnd(t, if t != [] && t[0] == MINUS then 1 else 0);
    if n == 0 then 0 else ExponentEnd(t, FractionEnd(t, n))
  }

  /** A zero, or digits that do not start with a zero. */
  function IntegerEnd(t: Text, k: nat): (n: nat)
    requires k <= |t|
    ensures n <= |t|
  {
    if k < |t| && t[k] == 48 then k + 1
    else
      var n := DigitsEnd(t, k);
      if n == k then 0 else n
  }

  function FractionEnd(t: Text, k: nat): (n: nat)
    requires k <= |t|
    ensures k <= n <= |t|
  {
    if k < |t| && t[k] == POINT && DigitsEnd(t, k + 1) > k + 1 then DigitsEnd(t, k + 1) else k
  }

  function ExponentEnd(t: Text, k: nat): (n: nat)
    requires k <= |t|
    ensures k <= n <= |t|
  {
    if k < |t| && (t[k] == 69 || t[k] == 101) then
      var m := if k + 1 < |t| && (t[k + 1] == PLUS || t[k + 1] == MINUS) then k + 2 else k + 1;
      if DigitsEnd(t, m) > m then DigitsEnd(t, m) else k
    else k
  }

  /** A number of JSON; what the language prints for a finite number is one. */
  predicate NumberText(t: Text) {
    t != [] && NumberEnd(t) == |t|
  }

  predicate DistinctKeys(fields: seq<Field>) {
    forall i, j :: 0 <= i < j < |fields| ==> fields[i].key != fields[j].key
  }

  /** What the language guarantees of every value: number texts are number texts and an
      object has each property once. */
  ghost predicate WellFormed(v: Json) {
    match v
    case Num(t) => NumberText(t)
    case Arr(items) => forall i :: 0 <= i < |items| ==> WellFormed(items[i])
    case Obj(fields) => DistinctKeys(fields) && forall i :: 0 <= i < |fields| ==> WellFormed(fields[i].value)
    case _ => true
  }

  function Keys(fields: seq<Field>): (ks: seq<Text>)
    ensures |ks| == |fields| && forall i :: 0 <= i < |ks| ==> ks[i] == fields[i].key
  {
    seq(|fields|, i requires 0 <= i < |fields| => fields[i].key)
  }

  function IndexOf(fields: seq<Field>, k: Text): (i: nat)
    requires k in Keys(fields)
    ensures i < |fields| && fields[i].key == k
    ensures forall j :: 0 <= j < i ==> fields[j].key != k
  {
    if fields[0].key == k then 0
    else
      assert forall j :: 1 <= j < |fields| ==> Keys(fields)[j] == Keys(fields[1..])[j - 1];
      1 + IndexOf(fields[1..], k)
  }

  /** The property read `obj[k]`. */
  function Get(fields: seq<Field>, k: Text): (v: Json)
    requires k in Keys(fields)
    ensures exists i :: 0 <= i < |fields| && fields[i] == Field(k, v)
  {
    assert fields[IndexOf(fields, k)] == Field(k, fields[IndexOf(fields, k)].value);
    fields[IndexOf(fields, k)].value
  }

  lemma GetAt(fields: seq<Field>, i: nat)
    requires DistinctKeys(fields) && i < |fields|
    ensures fields[i].key in Keys(fields) && Get(fields, fields[i].key) == fields[i].value
  {
    assert Keys(fields)[i] == fields[i].key;
    var v := Get(fields, fields[i].key);
    var j :| 0 <= j < |fields| && fields[j] == Field(fields[i].key, v);
  }

  // ---------- key order ----------

  /** Lexicographic order by code unit, the default order of `Array.prototype.sort`. */
  predicate Before(a: Text, b: Text) {
    b != [] && (a == [] || a[0] < b[0] || (a[0] == b[0] && Before(a[1..], b[1..])))
  }

  /** The first difference decides, or the end of the shorter text. */
  lemma {:induction false} BeforeMeans(a: Text, b: Text)
    ensures Before(a, b) <==>
            exists k: nat :: k <= |a| && k < |b| && a[..k] == b[..k] && (k == |a| || a[k] < b[k])
  {
    if b != [] && a != [] && a[0] == b[0] {
      BeforeMeans(a[1..], b[1..]);
      if Before(a, b) {
        var k: nat :|
          k <= |a[1..]| && k < |b[1..]| && a[1..][..k] == b[1..][..k] && (k == |a[1..]| || a[1..][k] < b[1..][k]);
        assert a[..k + 1] == [a[0]] + a[1..][..k] && b[..k + 1] == [b[0]] + b[1..][..k];
      }
      forall k: nat | k <= |a| && k < |b| && a[..k] == b[..k] && (k == |a| || a[k] < b[k])
        ensures Before(a, b)
      {
        assert k > 0;
        assert a[1..][..k - 1] == a[..k][1..] && b[1..][..k - 1] == b[..k][1..];
      }
    } else if Before(a, b) {
      assert a[..0] == b[..0];
    } else {
      assert forall k: nat :: 0 < k <= |a| && k < |b| ==> a[..k][0] == a[0] && b[..k][0] == b[0];
      forall k: nat | k <= |a| && k < |b| && a[..k] == b[..k]
        ensures !(k == |a| || a[k] < b[k])
      {
      }
    }
  }

  function Insert(k: Text, ks: seq<Text>): (r: seq<Text>)
    ensures multiset(r) == multiset(ks) + multiset{k}
  {
    if ks == [] || !Before(ks[0], k) then [k] + ks
    else
      assert ks == [ks[0]] + ks[1..];
      [ks[0]] + Insert(k, ks[1..])
  }

  function Sort(ks: seq<Text>): (r: seq<Text>)
    ensures multiset(r) == multiset(ks)
  {
    if ks == [] then []
    else
      assert ks == [ks[0]] + ks[1..];
      Insert(ks[0], Sort(ks[1..]))
  }

  ghost predicate Ordered(ks: seq<Text>) {
    forall i, j :: 0 <= i < j < |ks| ==> Before(ks[i], ks[j])
  }

  lemma {:induction false} BeforeTotal(a: Text, b: Text)
    ensures a == b || Before(a, b) || Before(b, a)
    ensures !(Before(a, b) && Before(b, a)) && !Before(a, a)
  {
    if a != [] && b != [] {
      if a[0] == b[0] {
        BeforeTotal(a[1..], b[1..]);
        assert a == [a[0]] + a[1..] && b == [b[0]] + b[1..];
      }
      BeforeTotal(a[1..], a[1..]);
    } else if a != [] {
      BeforeTotal(a[1..], a[1..]);
    }
  }

  lemma {:induction false} BeforeTransitive(a: Text, b: Text, c: Text)
    requires Before(a, b) && Before(b, c)
    ensures Before(a, c)
  {
    if a != [] && a[0] == b[0] && b[0] == c[0] {
      BeforeTransitive(a[1..], b[1..], c[1..]);
    }
  }

  lemma {:induction false} ConsOrdered(k: Text, ks: seq<Text>)
    requires Ordered(ks) && forall j :: 0 <= j < |ks| ==> Before(k, ks[j])
    ensures Ordered([k] + ks)
  {
    var r := [k] + ks;
    forall i, j | 0 <= i < j < |r|
      ensures Before(r[i], r[j])
    {
      assert r[j] == ks[j - 1];
      if i > 0 { assert r[i] == ks[i - 1]; }
    }
  }

  lemma {:induction false} InsertMembers(k: Text, ks: seq<Text>, j: nat)
    requires j < |Insert(k, ks)|
    ensures Insert(k, ks)[j] == k || Insert(k, ks)[j] in ks
  {
    var r := Insert(k, ks);
    assert r[j] in multiset(r);
    assert r[j] in multiset(ks) + multiset{k};
  }

  lemma {:induction false} InsertOrdered(k: Text, ks: seq<Text>)
    requires Ordered(ks) && k !in ks
    ensures Ordered(Insert(k, ks))
  {
    if ks == [] {
    } else {
      BeforeTotal(k, ks[0]);
      if Before(ks[0], k) {
        var r := Insert(k, ks[1..]);
        InsertOrdered(k, ks[1..]);
        forall j | 0 <= j < |r|
          ensures Before(ks[0], r[j])
        {
          InsertMembers(k, ks[1..], j);
        }
        ConsOrdered(ks[0], r);
      } else {
        forall j | 0 <= j < |ks|
          ensures Before(k, ks[j])
        {
          if j > 0 { BeforeTransitive(k, ks[0], ks[j]); }
        }
        ConsOrdered(k, ks);
      }
    }
  }

  lemma {:induction false} SortOrdered(ks: seq<Text>)
    requires forall i, j :: 0 <= i < j < |ks| ==> ks[i] != ks[j]
    ensures Ordered(Sort(ks))
  {
    if ks != [] {
      SortOrdered(ks[1..]);
      SortKeeps(ks[1..]);
      InsertOrdered(ks[0], Sort(ks[1..]));
    }
  }

  lemma {:induction false} SortKeeps(ks: seq<Text>)
    ensures forall k :: k in Sort(ks) <==> k in ks
  {
    forall k
      ensures k in Sort(ks) <==> k in ks
    {
      assert k in Sort(ks) <==> k in multiset(Sort(ks));
      assert k in ks <==> k in multiset(ks);
    }
  }

  /** A set of keys has one ordered listing. */
  lemma {:induction false} OrderedUnique(a: seq<Text>, b: seq<Text>)
    requires Ordered(a) && Ordered(b)
    requires forall k :: k in a <==> k in b
    ensures a == b
  {
    if a == [] {
      assert b == [] by { assert forall i :: 0 <= i < |b| ==> b[i] in b; }
    } else {
      assert a[0] in b;
      assert b != [];
      assert b[0] in a;
      BeforeTotal(a[0], b[0]);
      BeforeTotal(a[0], a[0]);
      assert a[0] == b[0];
      forall k
        ensures k in a[1..] <==> k in b[1..]
      {
        BeforeTotal(k, k);
        if k in a[1..] { assert Before(a[0], k); assert k in b; }
        if k in b[1..] { assert Before(b[0], k); assert k in a; }
      }
      OrderedUnique(a[1..], b[1..]);
    }
  }

  // ---------- the printer ----------

  function Hex(n: nat): CodeUnit
    requires n < 16
  {
    if n < 10 then 48 + n else 87 + n
  }

  /** The escape \uXXXX in lower-case hexadecimal. */
  function UnicodeEscape(c: CodeUnit): Text {
    [BACKSLASH, 117, Hex(c / 4096), Hex(c / 256 % 16), Hex(c / 16 % 16), Hex(c % 16)]
  }

  predicate HighSurrogate(c: CodeUnit) { 0xD800 <= c <= 0xDBFF }
  predicate LowSurrogate(c: CodeUnit) { 0xDC00 <= c <= 0xDFFF }

  /** One code unit that is not part of a surrogate pair, as `JSON.stringify` writes it. */
  function Escape(c: CodeUnit): Text {
    if c == 8 then [BACKSLASH, 98]
    else if c == 9 then [BACKSLASH, 116]
    else if c == 10 then [BACKSLASH, 110]
    else if c == 12 then [BACKSLASH, 102]
    else if c == 13 then [BACKSLASH, 114]
    else if c == QUOTE then [BACKSLASH, QUOTE]
    else if c == BACKSLASH then [BACKSLASH, BACKSLASH]
    else if c < 32 || HighSurrogate(c) || LowSurrogate(c) then UnicodeEscape(c)
    else [c]
  }

  predicate StartsWithPair(s: Text) {
    |s| >= 2 && HighSurrogate(s[0]) && LowSurrogate(s[1])
  }

  function QuoteBody(s: Text): Text {
    if s == [] then []
    else if StartsWithPair(s) then s[..2] + QuoteBody(s[2..])
    else Escape(s[0]) + QuoteBody(s[1..])
  }

  /** `JSON.stringify` of a string. */
  function Quote(s: Text): Text {
    [QUOTE] + QuoteBody(s) + [QUOTE]
  }

  /** `stableStringify`. */
  function Print(v: Json): Text
    decreases v, 1
  {
    match v
    case Undefined => NULL_TEXT
    case Null => NULL_TEXT
    case Bool(b) => if b then TRUE_TEXT else FALSE_TEXT
    case Num(t) => t
    case NonFinite => NULL_TEXT
    case Str(s) => Quote(s)
    case Arr(items) => [LBRACKET] + PrintItems(items) + [RBRACKET]
    case Obj(fields) =>
      SortKeeps(Keys(fields));
      [LBRACE] + PrintMembers(fields, Sort(Keys(fields))) + [RBRACE]
  }

  /** The elements joined by commas. */
  function PrintItems(items: seq<Json>): Text
    decreases items, 0
  {
    if items == [] then []
    else Print(items[0]) + (if |items| == 1 then [] else [COMMA] + PrintItems(items[1..]))
  }

  /** The members named by `ks`, in that order, joined by commas. */
  function PrintMembers(fields: seq<Field>, ks: seq<Text>): Text
    requires forall k :: k in ks ==> k in Keys(fields)
    decreases fields, 0, |ks|
  {
    if ks == [] then []
    else
      Quote(ks[0]) + [COLON] + Print(Get(fields, ks[0])) +
      (if |ks| == 1 then [] else [COMMA] + PrintMembers(fields, ks[1..]))
  }

  // ---------- equality up to key order ----------

  predicate NullLike(v: Json) {
    v.Undefined? || v.Null? || v.NonFinite?
  }

  /** Equal up to the order of object keys, with undefined and non-finite numbers counted as null. */
  ghost predicate Same(v: Json, w: Json)
    decreases v
  {
    if NullLike(v) || NullLike(w) then NullLike(v) && NullLike(w)
    else match v
      case Bool(b) => w == v
      case Num(t) => w == v
      case Str(s) => w == v
      case Arr(items) =>
        w.Arr? && |items| == |w.items| && forall i :: 0 <= i < |items| ==> Same(items[i], w.items[i])
      case Obj(fields) =>
        && w.Obj?
        && (forall k :: k in Keys(fields) <==> k in Keys(w.fields))
        && (forall k :: k in Keys(fields) && k in Keys(w.fields) ==> Same(Get(fields, k), Get(w.fields, k)))
      case _ => false
  }

  lemma {:induction false} SameSymmetric(v: Json, w: Json)
    ensures Same(v, w) <==> Same(w, v)
    decreases v
  {
    if v.Arr? && w.Arr? && |v.items| == |w.items| {
      forall i | 0 <= i < |v.items|
        ensures Same(v.items[i], w.items[i]) <==> Same(w.items[i], v.items[i])
      {
        SameSymmetric(v.items[i], w.items[i]);
      }
    } else if v.Obj? && w.Obj? {
      forall k | k in Keys(v.fields) && k in Keys(w.fields)
        ensures Same(Get(v.fields, k), Get(w.fields, k)) <==> Same(Get(w.fields, k), Get(v.fields, k))
      {
        SameSymmetric(Get(v.fields, k), Get(w.fields, k));
      }
    }
  }

  lemma {:induction false} SameTransitive(u: Json, v: Json, w: Json)
    requires Same(u, v) && Same(v, w)
    ensures Same(u, w)
    decreases u
  {
    if u.Arr? {
      forall i | 0 <= i < |u.items|
        ensures Same(u.items[i], w.items[i])
      {
        SameTransitive(u.items[i], v.items[i], w.items[i]);
      }
    } else if u.Obj? {
      forall k | k in Keys(u.fields)
        ensures Same(Get(u.fields, k), Get(w.fields, k))
      {
        SameTransitive(Get(u.fields, k), Get(v.fields, k), Get(w.fields, k));
      }
    }
  }

  // ---------- equal values print equally ----------

  lemma {:induction false} SamePrints(v: Json, w: Json)
    requires WellFormed(v) && WellFormed(w) && Same(v, w)
    ensures Print(v) == Print(w)
    decreases v, 1
  {
    if v.Arr? {
      SameItemsPrint(v.items, w.items);
    } else if v.Obj? {
      var f, g := v.fields, w.fields;
      SortKeeps(Keys(f));
      SortKeeps(Keys(g));
      SortOrdered(Keys(f));
      SortOrdered(Keys(g));
      OrderedUnique(Sort(Keys(f)), Sort(Keys(g)));
      SameMembersPrint(f, g, Sort(Keys(f)));
    }
  }

  lemma {:induction false} SameItemsPrint(xs: seq<Json>, ys: seq<Json>)
    requires |xs| == |ys|
    requires forall i :: 0 <= i < |xs| ==> WellFormed(xs[i]) && WellFormed(ys[i]) && Same(xs[i], ys[i])
    ensures PrintItems(xs) == PrintItems(ys)
    decreases xs, 0
  {
    if xs != [] {
      SamePrints(xs[0], ys[0]);
      SameItemsPrint(xs[1..], ys[1..]);
    }
  }

  lemma {:induction false} SameMembersPrint(f: seq<Field>, g: seq<Field>, ks: seq<Text>)
    requires forall i :: 0 <= i < |f| ==> WellFormed(f[i].value)
    requires forall i :: 0 <= i < |g| ==> WellFormed(g[i].value)
    requires forall k :: k in ks ==> k in Keys(f) && k in Keys(g) && Same(Get(f, k), Get(g, k))
    ensures PrintMembers(f, ks) == PrintMembers(g, ks)
    decreases f, 0, |ks|
  {
    if ks != [] {
      SamePrints(Get(f, ks[0]), Get(g, ks[0]));
      SameMembersPrint(f, g, ks[1..]);
    }
  }

  // ---------- storage in a JSONB column ----------

  /** `w` is what a JSONB column gives back for `v`: undefined fields are gone, every other
      undefined or non-finite number is null, and the key order is whatever the database chose. */
  ghost predicate StoredAs(v: Json, w: Json)
    decreases v
  {
    if NullLike(v) then w == Null
    else match v
      case Arr(items) =>
        w.Arr? && |items| == |w.items| && forall i :: 0 <= i < |items| ==> StoredAs(items[i], w.items[i])
      case Obj(fields) =>
        && w.Obj?
        && (forall k :: k in Keys(w.fields) <==> k in Keys(fields) && !Get(fields, k).Undefined?)
        && (forall k :: k in Keys(fields) && k in Keys(w.fields) ==> StoredAs(Get(fields, k), Get(w.fields, k)))
      case _ => w == v
  }

  /** No object inside `v` has an undefined field. */
  ghost predicate NoUndefinedField(v: Json)
    decreases v
  {
    match v
    case Arr(items) => forall i :: 0 <= i < |items| ==> NoUndefinedField(items[i])
    case Obj(fields) => forall k :: k in Keys(fields) ==> !Get(fields, k).Undefined? && NoUndefinedField(Get(fields, k))
    case _ => true
  }

  lemma {:induction false} StoredSame(v: Json, w: Json)
    requires StoredAs(v, w)
    ensures Same(v, w) <==> NoUndefinedField(v)
    decreases v
  {
    if v.Arr? {
      forall i | 0 <= i < |v.items|
        ensures Same(v.items[i], w.items[i]) <==> NoUndefinedField(v.items[i])
      {
        StoredSame(v.items[i], w.items[i]);
      }
    } else if v.Obj? {
      forall k | k in Keys(v.fields) && k in Keys(w.fields)
        ensures Same(Get(v.fields, k), Get(w.fields, k)) <==> NoUndefinedField(Get(v.fields, k))
      {
        StoredSame(Get(v.fields, k), Get(w.fields, k));
      }
    }
  }
}
