/** A reader of JSON texts without insignificant white space (RFC 8259), written from the grammar, and what it reads in the
  text of the canonical printer: the printed value, with the members of its objects in key order. */
module JsonReader {
  import opened CanonicalJson

  /** What was read, and the text after it. */
  datatype Read<+T> = Fail | Done(value: T, rest: Text)

  // ---------- the reader ----------

  function HexValue(c: CodeUnit): (n: int)
    ensures -1 <= n < 16
  {
    if 48 <= c <= 57 then c - 48
    else if 65 <= c <= 70 then c - 55
    else if 97 <= c <= 102 then c - 87
    else -1
  }

  /** The escapes of one letter (section 7), and what they stand for. */
  function Letter(c: CodeUnit): Read<CodeUnit> {
    match c
    case 34 => Done(34, [])
    case 92 => Done(92, [])
    case 47 => Done(47, [])
    case 98 => Done(8, [])
    case 102 => Done(12, [])
    case 110 => Done(10, [])
    case 114 => Done(13, [])
    case 116 => Done(9, [])
    case _ => Fail
  }

  /** An escape: a backslash with a letter, or with `u` and four hexadecimal digits. */
  function ReadEscape(t: Text): (r: Read<Text>)
    requires t != []
    ensures r.Done? ==> |r.rest| < |t|
  {
    if |t| >= 2 && Letter(t[1]).Done? then Done([Letter(t[1]).value], t[2..])
    else if |t| >= 6 && t[1] == 117 && (forall i :: 2 <= i < 6 ==> HexValue(t[i]) >= 0) then
      Done([4096 * HexValue(t[2]) + 256 * HexValue(t[3]) + 16 * HexValue(t[4]) + HexValue(t[5])], t[6..])
    else Fail
  }

  /** One character of a string: an escape, or a code point that stands for itself, which a lone surrogate does not. */
  function ReadChar(t: Text): (r: Read<Text>)
    ensures r.Done? ==> |r.rest| < |t|
  {
    if t == [] then Fail
    else if t[0] == BACKSLASH then ReadEscape(t)
    else if StartsWithPair(t) then Done(t[..2], t[2..])
    else if t[0] < 32 || t[0] == QUOTE || HighSurrogate(t[0]) || LowSurrogate(t[0]) then Fail
    else Done(t[..1], t[1..])
  }

  /** The characters up to the closing quote. */
  function ReadChars(t: Text): (r: Read<Text>)
    ensures r.Done? ==> |r.rest| < |t|
    decreases |t|
  {
    if t != [] && t[0] == QUOTE then Done([], t[1..])
    else
      var c := ReadChar(t);
      if c.Fail? then Fail
      else
        var s := ReadChars(c.rest);
        if s.Fail? then Fail else Done(c.value + s.value, s.rest)
  }

  predicate Begins(t: Text, c: CodeUnit) {
    t != [] && t[0] == c
  }

  predicate Starts(t: Text, p: Text) {
    |p| <= |t| && t[..|p|] == p
  }

  /** A value: a string, an array, an object, a number or a literal. */
  function ReadValue(t: Text): (r: Read<Json>)
    ensures r.Done? ==> |r.rest| < |t|
    decreases |t|, 1
  {
    if t == [] then Fail
    else if t[0] == QUOTE then ReadString(t)
    else if t[0] == LBRACKET then ReadArray(t)
    else if t[0] == LBRACE then ReadObject(t)
    else if t[0] == MINUS || Digit(t[0]) then ReadNumber(t)
    else ReadLiteral(t)
  }

  function ReadString(t: Text): (r: Read<Json>)
    requires t != []
    ensures r.Done? ==> |r.rest| < |t|
  {
    var s := ReadChars(t[1..]);
    if s.Fail? then Fail else Done(Str(s.value), s.rest)
  }

  function ReadNumber(t: Text): (r: Read<Json>)
    requires t != []
    ensures r.Done? ==> |r.rest| < |t|
  {
    var n := NumberEnd(t);
    if n == 0 then Fail else Done(Num(t[..n]), t[n..])
  }

  function ReadLiteral(t: Text): (r: Read<Json>)
    ensures r.Done? ==> |r.rest| < |t|
  {
    if Starts(t, NULL_TEXT) then Done(Null, t[4..])
    else if Starts(t, TRUE_TEXT) then Done(Bool(true), t[4..])
    else if Starts(t, FALSE_TEXT) then Done(Bool(false), t[5..])
    else Fail
  }

  function ReadArray(t: Text): (r: Read<Json>)
    requires t != []
    ensures r.Done? ==> |r.rest| < |t|
    decreases |t|, 0
  {
    if Begins(t[1..], RBRACKET) then Done(Arr([]), t[2..])
    else
      var xs := ReadItems(t[1..]);
      if xs.Fail? then Fail else Done(Arr(xs.value), xs.rest)
  }

  function ReadObject(t: Text): (r: Read<Json>)
    requires t != []
    ensures r.Done? ==> |r.rest| < |t|
    decreases |t|, 0
  {
    if Begins(t[1..], RBRACE) then Done(Obj([]), t[2..])
    else
      var fs := ReadMembers(t[1..]);
      if fs.Fail? then Fail else Done(Obj(fs.value), fs.rest)
  }

  /** Values separated by commas, up to the closing bracket. */
  function ReadItems(t: Text): (r: Read<seq<Json>>)
    ensures r.Done? ==> |r.rest| < |t|
    decreases |t|, 2
  {
    var v := ReadValue(t);
    if v.Fail? then Fail
    else if Begins(v.rest, RBRACKET) then Done([v.value], v.rest[1..])
    else if Begins(v.rest, COMMA) then
      var vs := ReadItems(v.rest[1..]);
      if vs.Fail? then Fail else Done([v.value] + vs.value, vs.rest)
    else Fail
  }

  /** A name, a colon and a value. */
  function ReadMember(t: Text): (r: Read<Field>)
    ensures r.Done? ==> |r.rest| < |t|
    decreases |t|, 2
  {
    if !Begins(t, QUOTE) then Fail
    else
      var k := ReadChars(t[1..]);
      if k.Fail? || !Begins(k.rest, COLON) then Fail
      else
        var v := ReadValue(k.rest[1..]);
        if v.Fail? then Fail else Done(Field(k.value, v.value), v.rest)
  }

  /** Members separated by commas, up to the closing brace. */
  function ReadMembers(t: Text): (r: Read<seq<Field>>)
    ensures r.Done? ==> |r.rest| < |t|
    decreases |t|, 3
  {
    var m := ReadMember(t);
    if m.Fail? then Fail
    else if Begins(m.rest, RBRACE) then Done([m.value], m.rest[1..])
    else if Begins(m.rest, COMMA) then
      var ms := ReadMembers(m.rest[1..]);
      if ms.Fail? then Fail else Done([m.value] + ms.value, ms.rest)
    else Fail
  }

  // ---------- strings read back ----------

  lemma HexReads(n: nat)
    requires n < 16
    ensures HexValue(Hex(n)) == n
  {
  }

  lemma Nibbles(c: CodeUnit)
    ensures c == 4096 * (c / 4096) + 256 * (c / 256 % 16) + 16 * (c / 16 % 16) + c % 16
  {
    var x := c / 16;
    var y := x / 16;
    assert c / 256 == y && c / 4096 == y / 16;
  }

  lemma UnicodeEscapeReads(c: CodeUnit, r: Text)
    ensures ReadEscape(UnicodeEscape(c) + r) == Done([c], r)
  {
    var t := UnicodeEscape(c) + r;
    HexReads(c / 4096);
    HexReads(c / 256 % 16);
    HexReads(c / 16 % 16);
    HexReads(c % 16);
    Nibbles(c);
    assert t[2] == Hex(c / 4096) && t[3] == Hex(c / 256 % 16) && t[4] == Hex(c / 16 % 16) && t[5] == Hex(c % 16);
    assert t[6..] == r;
  }

  /** An escape is read as the code unit it escapes, whatever follows. */
  lemma EscapeReads(c: CodeUnit, r: Text)
    ensures ReadChar(Escape(c) + r) == Done([c], r) && Escape(c) != [] && Escape(c)[0] != QUOTE
  {
    var t := Escape(c) + r;
    if Escape(c) == UnicodeEscape(c) {
      UnicodeEscapeReads(c, r);
    } else if |Escape(c)| == 2 {
      assert t[0] == BACKSLASH && t[1] == Escape(c)[1] && t[2..] == r;
    } else {
      assert t[0] == c && t[1..] == r && t[..1] == [c];
    }
  }

  predicate NoCapital(t: Text) {
    forall i :: 2 <= i < |t| ==> !(65 <= t[i] <= 70)
  }

  lemma HexWritten(c: CodeUnit)
    requires HexValue(c) >= 0 && !(65 <= c <= 70)
    ensures Hex(HexValue(c)) == c
  {
  }

  lemma Digits16(a: nat, b: nat, c: nat, d: nat)
    requires a < 16 && b < 16 && c < 16 && d < 16
    ensures var n := 4096 * a + 256 * b + 16 * c + d;
      n / 4096 == a && n / 256 % 16 == b && n / 16 % 16 == c && n % 16 == d
  {
    var n := 4096 * a + 256 * b + 16 * c + d;
    assert n / 16 == 256 * a + 16 * b + c;
    assert n / 256 == 16 * a + b;
  }

  /** With lower-case digits a code unit has one hexadecimal escape. */
  lemma OneUnicodeEscape(c: CodeUnit, t: Text)
    requires |t| == 6 && t[0] == BACKSLASH && t[1] == 117 && NoCapital(t)
    requires HexValue(t[2]) >= 0 && HexValue(t[3]) >= 0 && HexValue(t[4]) >= 0 && HexValue(t[5]) >= 0
    requires c == 4096 * HexValue(t[2]) + 256 * HexValue(t[3]) + 16 * HexValue(t[4]) + HexValue(t[5])
    ensures t == UnicodeEscape(c)
  {
    HexWritten(t[2]);
    HexWritten(t[3]);
    HexWritten(t[4]);
    HexWritten(t[5]);
    Digits16(HexValue(t[2]), HexValue(t[3]), HexValue(t[4]), HexValue(t[5]));
  }

  /** Of all texts that read as the code unit, hexadecimal digits in lower case, the escape is the shortest. */
  lemma EscapeShortest(c: CodeUnit, t: Text)
    requires ReadChar(t) == Done([c], []) && NoCapital(t)
    ensures t == Escape(c) || |Escape(c)| < |t|
  {
    if t[0] == BACKSLASH {
      if Letter(t[1]).Done? {
        assert t == [BACKSLASH, t[1]];
      } else {
        OneUnicodeEscape(c, t);
      }
    } else {
      assert t == [c];
    }
  }

  lemma {:induction false} BodyReads(s: Text, r: Text)
    ensures ReadChars(QuoteBody(s) + ([QUOTE] + r)) == Done(s, r)
    decreases |s|
  {
    if s == [] {
      assert QuoteBody(s) + ([QUOTE] + r) == [QUOTE] + r;
    } else {
      var n := if StartsWithPair(s) then 2 else 1;
      BodyReads(s[n..], r);
      CharReads(s, QuoteBody(s[n..]) + ([QUOTE] + r));
      BodySplit(s, QuoteBody(s[n..]), [QUOTE] + r);
      assert s == s[..n] + s[n..];
    }
  }

  /** The first character of a body: a surrogate pair as it is, any other code unit escaped. */
  function FirstChar(s: Text): Text
    requires s != []
  {
    if StartsWithPair(s) then s[..2] else Escape(s[0])
  }

  lemma BodySplit(s: Text, body: Text, r: Text)
    requires s != [] && body == QuoteBody(if StartsWithPair(s) then s[2..] else s[1..])
    ensures QuoteBody(s) + r == FirstChar(s) + (body + r)
  {
  }

  lemma CharReads(s: Text, r: Text)
    requires s != []
    ensures !Begins(FirstChar(s) + r, QUOTE)
    ensures ReadChar(FirstChar(s) + r) == Done(s[..if StartsWithPair(s) then 2 else 1], r)
  {
    var t := FirstChar(s) + r;
    if StartsWithPair(s) {
      assert t[..2] == s[..2] && t[2..] == r && t[0] == s[0] && t[1] == s[1];
    } else {
      EscapeReads(s[0], r);
      assert s[..1] == [s[0]];
    }
  }

  /** A quoted string is read back, whatever follows. */
  lemma QuoteReads(s: Text, r: Text)
    ensures Begins(Quote(s) + r, QUOTE) && ReadChars((Quote(s) + r)[1..]) == Done(s, r)
  {
    BodyReads(s, r);
    assert (Quote(s) + r)[1..] == QuoteBody(s) + ([QUOTE] + r);
  }

  // ---------- numbers read back ----------

  /** Text that can follow a printed value: nothing, or a separator. */
  predicate Ends(r: Text) {
    r == [] || r[0] == COMMA || r[0] == RBRACKET || r[0] == RBRACE
  }

  lemma {:induction false} DigitsEndBefore(a: Text, r: Text, k: nat)
    requires k <= |a| && Ends(r)
    ensures DigitsEnd(a + r, k) == DigitsEnd(a, k)
    decreases |a| - k
  {
    if k < |a| && Digit(a[k]) { DigitsEndBefore(a, r, k + 1); }
  }

  /** A number ends where what follows begins. */
  lemma NumberReads(a: Text, r: Text)
    requires Ends(r)
    ensures NumberEnd(a + r) == NumberEnd(a)
  {
    forall k: nat | k <= |a|
      ensures DigitsEnd(a + r, k) == DigitsEnd(a, k)
    {
      DigitsEndBefore(a, r, k);
    }
    var k := if a != [] && a[0] == MINUS then 1 else 0;
    assert IntegerEnd(a + r, k) == IntegerEnd(a, k);
    var n := IntegerEnd(a, k);
    assert FractionEnd(a + r, n) == FractionEnd(a, n);
    ExponentReads(a, r, FractionEnd(a, n));
  }

  lemma {:induction false} ExponentReads(a: Text, r: Text, k: nat)
    requires Ends(r) && k <= |a|
    requires forall m: nat :: m <= |a| ==> DigitsEnd(a + r, m) == DigitsEnd(a, m)
    ensures ExponentEnd(a + r, k) == ExponentEnd(a, k)
  {
  }

  // ---------- values read back ----------

  /** No undefined and no non-finite part, and the members of every object in the order of their names. */
  ghost predicate Canonical(v: Json) {
    match v
    case Undefined => false
    case NonFinite => false
    case Arr(items) => forall i :: 0 <= i < |items| ==> Canonical(items[i])
    case Obj(fields) => Ordered(Keys(fields)) && forall i :: 0 <= i < |fields| ==> Canonical(fields[i].value)
    case _ => true
  }

  /** What was read is the value, in canonical form, with r left over. */
  ghost predicate Gives(x: Read<Json>, v: Json, r: Text) {
    x.Done? && x.rest == r && Same(v, x.value) && Canonical(x.value)
  }

  ghost predicate GivesItems(x: Read<seq<Json>>, xs: seq<Json>, r: Text) {
    && x.Done? && x.rest == r && |x.value| == |xs|
    && forall i :: 0 <= i < |xs| ==> Same(xs[i], x.value[i]) && Canonical(x.value[i])
  }

  ghost predicate GivesMembers(x: Read<seq<Field>>, fields: seq<Field>, ks: seq<Text>, r: Text)
    requires forall k :: k in ks ==> k in Keys(fields)
  {
    && x.Done? && x.rest == r && Keys(x.value) == ks
    && forall i :: 0 <= i < |ks| ==> Same(Get(fields, ks[i]), x.value[i].value) && Canonical(x.value[i].value)
  }

  lemma {:induction false} PrintLead(v: Json)
    requires WellFormed(v)
    ensures Print(v) != [] && Print(v)[0] != RBRACKET
    ensures Print(v)[0] == 110 <==> NullLike(v)
    ensures Print(v)[0] == 116 || Print(v)[0] == 102 <==> v.Bool?
    ensures Print(v)[0] == QUOTE <==> v.Str?
    ensures Print(v)[0] == LBRACKET <==> v.Arr?
    ensures Print(v)[0] == LBRACE <==> v.Obj?
  {
    if v.Num? { NumberLead(v.text); }
  }

  lemma NumberLead(t: Text)
    requires NumberText(t)
    ensures Digit(t[0]) || t[0] == MINUS
  {
  }

  lemma {:induction false} PrintReads(v: Json, r: Text)
    requires WellFormed(v) && Ends(r)
    ensures Gives(ReadValue(Print(v) + r), v, r)
    decreases v, 1
  {
    PrintLead(v);
    var t := Print(v) + r;
    assert t[0] == Print(v)[0];
    match v
    case Str(s) => QuoteReads(s, r);
    case Num(text) => NumberRead(text, r);
    case Arr(items) => ArrayReads(items, r);
    case Obj(_) => ObjectReads(v, r);
    case _ => LiteralReads(v, r);
  }

  lemma NumberRead(a: Text, r: Text)
    requires NumberText(a) && Ends(r)
    ensures ReadNumber(a + r) == Done(Num(a), r)
  {
    NumberReads(a, r);
    assert (a + r)[..|a|] == a && (a + r)[|a|..] == r;
  }

  lemma {:induction false} LiteralReads(v: Json, r: Text)
    requires NullLike(v) || v.Bool?
    ensures ReadLiteral(Print(v) + r) == Done(if v.Bool? then v else Null, r)
  {
    var t := Print(v) + r;
    assert t[..|Print(v)|] == Print(v) && t[|Print(v)|..] == r;
    assert t[..4][0] == t[0] == Print(v)[0];
  }

  lemma Wrapped(c: CodeUnit, t: Text, d: CodeUnit, r: Text)
    ensures (([c] + t + [d]) + r)[1..] == t + ([d] + r) && ([c] + t + [d] + r)[0] == c
    ensures t == [] ==> ([c] + t + [d] + r)[..2] == [c, d] && ([c] + t + [d] + r)[2..] == r
  {
  }

  lemma {:induction false} ArrayReads(xs: seq<Json>, r: Text)
    requires WellFormed(Arr(xs))
    ensures Gives(ReadArray(Print(Arr(xs)) + r), Arr(xs), r)
    decreases xs, 1
  {
    var t := Print(Arr(xs)) + r;
    Wrapped(LBRACKET, PrintItems(xs), RBRACKET, r);
    if xs != [] {
      ItemsRead(xs, r);
      PrintLead(xs[0]);
      assert t[1] == Print(xs[0])[0];
    }
  }

  /** What follows the first element of a non-empty printed array. */
  function AfterItem(xs: seq<Json>, r: Text): (t: Text)
    requires xs != []
    ensures Ends(t)
    ensures PrintItems(xs) + ([RBRACKET] + r) == Print(xs[0]) + t
    ensures |xs| == 1 ==> t[..1] == [RBRACKET] && t[1..] == r
    ensures |xs| > 1 ==> t[..1] == [COMMA] && t[1..] == PrintItems(xs[1..]) + ([RBRACKET] + r)
  {
    if |xs| == 1 then [RBRACKET] + r else [COMMA] + (PrintItems(xs[1..]) + ([RBRACKET] + r))
  }

  lemma {:induction false} ItemsRead(xs: seq<Json>, r: Text)
    requires xs != [] && forall i :: 0 <= i < |xs| ==> WellFormed(xs[i])
    ensures GivesItems(ReadItems(PrintItems(xs) + ([RBRACKET] + r)), xs, r)
    decreases xs, 0
  {
    PrintReads(xs[0], AfterItem(xs, r));
    if |xs| > 1 { ItemsRead(xs[1..], r); }
  }

  lemma {:induction false} ObjectReads(v: Json, r: Text)
    requires v.Obj? && WellFormed(v)
    ensures Gives(ReadObject(Print(v) + r), v, r)
    decreases v, 0
  {
    var t, ks := Print(v) + r, Sort(Keys(v.fields));
    SortKeeps(Keys(v.fields));
    SortOrdered(Keys(v.fields));
    Wrapped(LBRACE, PrintMembers(v.fields, ks), RBRACE, r);
    if ks == [] {
      NoKeys(v.fields);
    } else {
      MembersRead(v.fields, ks, r);
      assert t[1] == Quote(ks[0])[0];
      ObjectSame(v.fields, ks, ReadMembers(t[1..]), r);
    }
  }

  lemma NoKeys(fields: seq<Field>)
    requires Sort(Keys(fields)) == []
    ensures fields == []
  {
    assert |multiset(Sort(Keys(fields)))| == |multiset(Keys(fields))|;
  }

  lemma ObjectSame(fields: seq<Field>, ks: seq<Text>, x: Read<seq<Field>>, r: Text)
    requires DistinctKeys(fields) && Ordered(ks) && (forall k :: k in ks <==> k in Keys(fields))
    requires GivesMembers(x, fields, ks, r)
    ensures Same(Obj(fields), Obj(x.value)) && Canonical(Obj(x.value))
  {
    var g := x.value;
    assert DistinctKeys(g) by {
      forall i, j | 0 <= i < j < |g|
        ensures g[i].key != g[j].key
      {
        assert ks[i] == g[i].key && ks[j] == g[j].key;
        BeforeTotal(ks[i], ks[j]);
      }
    }
    forall k | k in Keys(fields) && k in Keys(g)
      ensures Same(Get(fields, k), Get(g, k))
    {
      var i :| 0 <= i < |g| && Keys(g)[i] == k;
      GetAt(g, i);
    }
  }

  /** What follows the first member of a non-empty printed object. */
  function AfterMember(f: seq<Field>, ks: seq<Text>, r: Text): (t: Text)
    requires ks != [] && forall k :: k in ks ==> k in Keys(f)
    ensures Ends(t)
    ensures PrintMembers(f, ks) + ([RBRACE] + r) == Quote(ks[0]) + ([COLON] + (Print(Get(f, ks[0])) + t))
    ensures |ks| == 1 ==> t[..1] == [RBRACE] && t[1..] == r
    ensures |ks| > 1 ==> t[..1] == [COMMA] && t[1..] == PrintMembers(f, ks[1..]) + ([RBRACE] + r)
  {
    if |ks| == 1 then
      Regroup(Quote(ks[0]), Print(Get(f, ks[0])), [], [RBRACE] + r);
      [RBRACE] + r
    else
      var m := PrintMembers(f, ks[1..]);
      Regroup(Quote(ks[0]), Print(Get(f, ks[0])), [COMMA] + m, [RBRACE] + r);
      Cons(m, r);
      [COMMA] + (m + ([RBRACE] + r))
  }

  lemma Cons(m: Text, r: Text)
    ensures ([COMMA] + m) + ([RBRACE] + r) == [COMMA] + (m + ([RBRACE] + r))
  {
  }

  lemma Regroup(q: Text, p: Text, m: Text, r: Text)
    ensures (q + [COLON] + p + m) + r == q + ([COLON] + (p + (m + r)))
    ensures [] + r == r
  {
  }

  lemma {:induction false} MembersRead(f: seq<Field>, ks: seq<Text>, r: Text)
    requires ks != [] && (forall k :: k in ks ==> k in Keys(f)) && forall i :: 0 <= i < |f| ==> WellFormed(f[i].value)
    ensures GivesMembers(ReadMembers(PrintMembers(f, ks) + ([RBRACE] + r)), f, ks, r)
    decreases f, 0, |ks|
  {
    var v, u := Get(f, ks[0]), AfterMember(f, ks, r);
    PrintReads(v, u);
    MemberReads(ks[0], v, u);
    var t := PrintMembers(f, ks) + ([RBRACE] + r);
    var m := ReadMember(t);
    if |ks| == 1 {
      LastMember(f, ks, m, r);
      ReadLast(t, m);
    } else {
      MembersRead(f, ks[1..], r);
      NextMember(f, ks, m, ReadMembers(u[1..]), r);
      ReadNext(t, m, ReadMembers(u[1..]));
    }
  }

  lemma {:induction false} ReadLast(t: Text, m: Read<Field>)
    requires m == ReadMember(t) && m.Done? && Begins(m.rest, RBRACE)
    ensures ReadMembers(t) == Done([m.value], m.rest[1..])
  {
  }

  lemma {:induction false} ReadNext(t: Text, m: Read<Field>, ms: Read<seq<Field>>)
    requires m == ReadMember(t) && m.Done? && Begins(m.rest, COMMA) && ms == ReadMembers(m.rest[1..]) && ms.Done?
    ensures ReadMembers(t) == Done([m.value] + ms.value, ms.rest)
  {
  }

  ghost predicate GivesMember(m: Read<Field>, k: Text, v: Json, u: Text) {
    m.Done? && m.rest == u && m.value.key == k && Same(v, m.value.value) && Canonical(m.value.value)
  }

  lemma LastMember(f: seq<Field>, ks: seq<Text>, m: Read<Field>, r: Text)
    requires |ks| == 1 && (forall k :: k in ks ==> k in Keys(f))
    requires GivesMember(m, ks[0], Get(f, ks[0]), AfterMember(f, ks, r))
    ensures Begins(m.rest, RBRACE) && m.rest[1..] == r && GivesMembers(Done([m.value], r), f, ks, r)
  {
    assert m.rest[..1][0] == m.rest[0];
    assert Keys([m.value]) == ks;
  }

  lemma NextMember(f: seq<Field>, ks: seq<Text>, m: Read<Field>, ms: Read<seq<Field>>, r: Text)
    requires |ks| > 1 && (forall k :: k in ks ==> k in Keys(f))
    requires GivesMember(m, ks[0], Get(f, ks[0]), AfterMember(f, ks, r))
    requires GivesMembers(ms, f, ks[1..], r)
    ensures Begins(m.rest, COMMA) && m.rest[1..] == AfterMember(f, ks, r)[1..]
    ensures GivesMembers(Done([m.value] + ms.value, r), f, ks, r)
  {
    assert m.rest[..1][0] == m.rest[0];
    var all := [m.value] + ms.value;
    assert Keys(all) == ks;
    forall i | 0 <= i < |ks|
      ensures Same(Get(f, ks[i]), all[i].value) && Canonical(all[i].value)
    {
      if i > 0 { assert all[i] == ms.value[i - 1] && ks[i] == ks[1..][i - 1]; }
    }
  }

  lemma {:induction false} MemberReads(k: Text, v: Json, u: Text)
    requires Gives(ReadValue(Print(v) + u), v, u)
    ensures GivesMember(ReadMember(Quote(k) + ([COLON] + (Print(v) + u))), k, v, u)
  {
    QuoteReads(k, [COLON] + (Print(v) + u));
    assert ([COLON] + (Print(v) + u))[1..] == Print(v) + u;
  }

  // ---------- so the printed text determines the value ----------

  /** The escapes form a prefix code. */
  lemma EscapePrefixCode(c: CodeUnit, d: CodeUnit, r: Text, q: Text)
    requires Escape(c) + r == Escape(d) + q
    ensures c == d && r == q
  {
    EscapeReads(c, r);
    EscapeReads(d, q);
    assert [c][0] == [d][0];
  }

  lemma QuoteUnique(s: Text, t: Text, r: Text, q: Text)
    requires Quote(s) + r == Quote(t) + q
    ensures s == t && r == q
  {
    QuoteReads(s, r);
    QuoteReads(t, q);
  }

  lemma NumberUnique(a: Text, b: Text, r: Text, q: Text)
    requires NumberText(a) && NumberText(b) && Ends(r) && Ends(q)
    requires a + r == b + q
    ensures a == b && r == q
  {
    NumberRead(a, r);
    NumberRead(b, q);
  }

  lemma {:induction false} SameBySame(v: Json, u: Json, w: Json)
    requires Same(v, u) && Same(w, u)
    ensures Same(v, w)
  {
    SameSymmetric(w, u);
    SameTransitive(v, u, w);
  }

  /** Whatever follows them, two printed values with the same text are the same up to key order. */
  lemma {:induction false} PrintUnique(v: Json, w: Json, r: Text, q: Text)
    requires WellFormed(v) && WellFormed(w) && Ends(r) && Ends(q)
    requires Print(v) + r == Print(w) + q
    ensures Same(v, w) && r == q
  {
    PrintReads(v, r);
    PrintReads(w, q);
    SameBySame(v, ReadValue(Print(v) + r).value, w);
  }

  /** The two arrays agree item by item. */
  ghost predicate SameItems(xs: seq<Json>, ys: seq<Json>) {
    |xs| == |ys| && forall i :: 0 <= i < |xs| ==> Same(xs[i], ys[i])
  }

  lemma {:induction false} ArrayText(xs: seq<Json>, r: Text)
    ensures Print(Arr(xs)) + r == [LBRACKET] + (PrintItems(xs) + ([RBRACKET] + r))
  {
  }

  lemma {:induction false} ItemsUnique(xs: seq<Json>, ys: seq<Json>, r: Text, q: Text)
    requires forall i :: 0 <= i < |xs| ==> WellFormed(xs[i])
    requires forall i :: 0 <= i < |ys| ==> WellFormed(ys[i])
    requires PrintItems(xs) + ([RBRACKET] + r) == PrintItems(ys) + ([RBRACKET] + q)
    ensures SameItems(xs, ys) && r == q
  {
    ArrayText(xs, r);
    ArrayText(ys, q);
    ArrayReads(xs, r);
    ArrayReads(ys, q);
    SameBySame(Arr(xs), ReadArray(Print(Arr(xs)) + r).value, Arr(ys));
  }

  /** The two objects agree under every key of the list. */
  ghost predicate SameUnder(f: seq<Field>, g: seq<Field>, ks: seq<Text>)
    requires forall k :: k in ks ==> k in Keys(f) && k in Keys(g)
  {
    forall k :: k in ks ==> Same(Get(f, k), Get(g, k))
  }

  /** An object closes at once exactly when it has no members. */
  lemma {:induction false} MembersLead(f: seq<Field>, ks: seq<Text>, r: Text)
    requires forall k :: k in ks ==> k in Keys(f)
    ensures (PrintMembers(f, ks) + ([RBRACE] + r))[0] == RBRACE <==> ks == []
    ensures ks == [] ==> (PrintMembers(f, ks) + ([RBRACE] + r))[1..] == r
  {
    if ks != [] { assert PrintMembers(f, ks)[0] == Quote(ks[0])[0]; }
  }

  lemma {:induction false} MembersUnique(f: seq<Field>, g: seq<Field>, ks: seq<Text>, ls: seq<Text>, r: Text, q: Text)
    requires forall i :: 0 <= i < |f| ==> WellFormed(f[i].value)
    requires forall i :: 0 <= i < |g| ==> WellFormed(g[i].value)
    requires forall k :: k in ks ==> k in Keys(f)
    requires forall k :: k in ls ==> k in Keys(g)
    requires PrintMembers(f, ks) + ([RBRACE] + r) == PrintMembers(g, ls) + ([RBRACE] + q)
    ensures ks == ls && SameUnder(f, g, ks) && r == q
  {
    MembersLead(f, ks, r);
    MembersLead(g, ls, q);
    if ks != [] {
      MembersRead(f, ks, r);
      MembersRead(g, ls, q);
      var x := ReadMembers(PrintMembers(f, ks) + ([RBRACE] + r)).value;
      forall i | 0 <= i < |ks|
        ensures Same(Get(f, ks[i]), Get(g, ks[i]))
      {
        SameBySame(Get(f, ks[i]), x[i].value, Get(g, ks[i]));
      }
    }
  }

  /** The printer is unambiguous: equal texts exactly for values equal up to key order. */
  lemma {:induction false} PrinterUnambiguous(v: Json, w: Json)
    requires WellFormed(v) && WellFormed(w)
    ensures Print(v) == Print(w) <==> Same(v, w)
  {
    if Print(v) == Print(w) { PrintUnique(v, w, [], []); }
    if Same(v, w) { SamePrints(v, w); }
  }

  /** The printed text survives storage exactly when no object has an undefined field. */
  lemma {:induction false} PrintSurvivesStorage(v: Json, w: Json)
    requires WellFormed(v) && WellFormed(w) && StoredAs(v, w)
    ensures Print(v) == Print(w) <==> NoUndefinedField(v)
  {
    StoredSame(v, w);
    PrinterUnambiguous(v, w);
  }
}
