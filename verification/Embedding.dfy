/** The trigram embedding and its cosine similarity, in exact arithmetic. */
module Embedding {
  import opened AsciiText
  import opened Normalization
  import opened Wrappers

  const DIMS: nat := 64

  // ---------- hashing ----------

  const FNV_OFFSET: bv32 := 0x811c9dc5
  const FNV_PRIME: bv32 := 0x01000193

  function Mix(hash: bv32, code: bv32): bv32 {
    (hash ^ code) * FNV_PRIME
  }

  /** FNV-1a over 32 bits, of a text given by its character codes. */
  function Fnv(hash: bv32, codes: seq<bv32>): bv32
    decreases |codes|
  {
    if codes == [] then hash else Fnv(Mix(hash, codes[0]), codes[1..])
  }

  /** The published vectors of 32-bit FNV-1a for the empty text, "a" and "foobar". */
  lemma FnvVectors()
    ensures Fnv(FNV_OFFSET, []) == 0x811c9dc5 && Fnv(FNV_OFFSET, [0x61]) == 0xe40c292c
    ensures Fnv(FNV_OFFSET, [0x66, 0x6f, 0x6f, 0x62, 0x61, 0x72]) == 0xbf9cf968
  {
    FnvTwo(FNV_OFFSET, 0x66, 0x6f, [0x6f, 0x62, 0x61, 0x72]);
    FnvTwo(Mix(Mix(FNV_OFFSET, 0x66), 0x6f), 0x6f, 0x62, [0x61, 0x72]);
    FnvTwo(Mix(Mix(Mix(Mix(FNV_OFFSET, 0x66), 0x6f), 0x6f), 0x62), 0x61, 0x72, []);
  }

  lemma {:induction false} FnvTwo(hash: bv32, c: bv32, d: bv32, rest: seq<bv32>)
    ensures Fnv(hash, [c, d] + rest) == Fnv(Mix(Mix(hash, c), d), rest)
  {
    assert ([c, d] + rest)[1..] == [d] + rest;
    assert ([d] + rest)[1..] == rest;
  }

  method Fnv1a(codes: seq<bv32>) returns (hash: bv32)
    ensures hash == Fnv(FNV_OFFSET, codes)
  {
    hash := FNV_OFFSET;
    for i := 0 to |codes|
      invariant Fnv(hash, codes[i..]) == Fnv(FNV_OFFSET, codes)
    {
      assert codes[i..][1..] == codes[i + 1..];
      hash := Mix(hash, codes[i]);
    }
  }

  /** The hash in force, of a trigram. */
  function TrigramHash(trigram: string): nat {
    Fnv(FNV_OFFSET, seq(|trigram|, i requires 0 <= i < |trigram| => trigram[i] as int as bv32)) as nat
  }

  // ---------- the histogram ----------

  /** The bucket of the trigram at position i. Nothing below depends on which hash is used. */
  function Bucket(hash: string -> nat, text: string, i: nat): (b: nat)
    requires i + 3 <= |text|
    ensures b < DIMS
  {
    hash(text[i..i + 3]) % DIMS
  }

  /** How often each bucket is met among the first n trigrams. */
  function Histogram(hash: string -> nat, text: string, n: nat): (h: seq<nat>)
    requires n == 0 || n + 2 <= |text|
    ensures |h| == DIMS
  {
    if n == 0 then seq(DIMS, i => 0)
    else
      var h := Histogram(hash, text, n - 1);
      var b := Bucket(hash, text, n - 1);
      h[b := h[b] + 1]
  }

  function Total(h: seq<nat>): nat {
    if h == [] then 0 else Total(h[..|h| - 1]) + h[|h| - 1]
  }

  lemma {:induction false} TotalBump(h: seq<nat>, b: nat)
    requires b < |h|
    ensures Total(h[b := h[b] + 1]) == Total(h) + 1
  {
    var last := |h| - 1;
    if b < last {
      TotalBump(h[..last], b);
      assert h[b := h[b] + 1][..last] == h[..last][b := h[b] + 1];
    } else {
      assert h[b := h[b] + 1][..last] == h[..last];
    }
  }

  lemma {:induction false} TotalZero(n: nat)
    ensures Total(seq(n, i => 0)) == 0
  {
    if n > 0 {
      TotalZero(n - 1);
      assert seq(n, i => 0)[..n - 1] == seq(n - 1, i => 0);
    }
  }

  /** Conservation: every trigram is counted once. */
  lemma {:induction false} HistogramTotal(hash: string -> nat, text: string, n: nat)
    requires n == 0 || n + 2 <= |text|
    ensures Total(Histogram(hash, text, n)) == n
  {
    if n == 0 {
      TotalZero(DIMS);
    } else {
      HistogramTotal(hash, text, n - 1);
      TotalBump(Histogram(hash, text, n - 1), Bucket(hash, text, n - 1));
    }
  }

  /** The positions, among the first n, whose trigram falls into bucket b. */
  ghost function Positions(hash: string -> nat, text: string, n: nat, b: nat): set<nat>
    requires n == 0 || n + 2 <= |text|
  {
    set i: nat | i < n && Bucket(hash, text, i) == b
  }

  /** Each bucket holds the number of trigrams that hash to it. */
  lemma {:induction false} HistogramCounts(hash: string -> nat, text: string, n: nat, b: nat)
    requires (n == 0 || n + 2 <= |text|) && b < DIMS
    ensures Histogram(hash, text, n)[b] == |Positions(hash, text, n, b)|
  {
    if n == 0 {
      assert Positions(hash, text, n, b) == {};
    } else {
      HistogramCounts(hash, text, n - 1, b);
      var t := Positions(hash, text, n - 1, b);
      if Bucket(hash, text, n - 1) == b {
        assert Positions(hash, text, n, b) == t + {n - 1};
      } else {
        assert Positions(hash, text, n, b) == t;
      }
    }
  }

  // ---------- vectors ----------

  type Vector = seq<real>

  function Square(x: real): (r: real)
    ensures r >= 0.0
  {
    x * x
  }

  lemma SquarePositive(x: real)
    requires x != 0.0
    ensures Square(x) > 0.0
  {
    SameSign(x, x);
    assert Square(x) == Times(x, x);
  }

  lemma SameSign(x: real, y: real)
    requires (x > 0.0 && y > 0.0) || (x < 0.0 && y < 0.0)
    ensures Times(x, y) > 0.0
  {
  }

  function Times(x: real, y: real): real {
    x * y
  }

  function SumSq(v: Vector): (r: real)
    ensures r >= 0.0
  {
    if v == [] then 0.0 else SumSq(v[..|v| - 1]) + Square(v[|v| - 1])
  }

  function Dot(a: Vector, b: Vector): real
    requires |a| == |b|
  {
    if a == [] then 0.0 else Dot(a[..|a| - 1], b[..|b| - 1]) + Times(a[|a| - 1], b[|b| - 1])
  }

  function Quotient(x: real, n: real): real
    requires n != 0.0
  {
    x / n
  }

  function Scale(v: Vector, n: real): (r: Vector)
    requires n != 0.0
    ensures |r| == |v| && forall i :: 0 <= i < |v| ==> r[i] == Quotient(v[i], n)
  {
    seq(|v|, i requires 0 <= i < |v| => Quotient(v[i], n))
  }

  function Reals(h: seq<nat>): (v: Vector)
    ensures |v| == |h| && forall i :: 0 <= i < |h| ==> v[i] == h[i] as real
  {
    seq(|h|, i requires 0 <= i < |h| => h[i] as real)
  }

  /** `Math.sqrt`, taken as exact. */
  ghost predicate IsSqrt(sqrt: real -> real) {
    forall x :: 0.0 <= x ==> sqrt(x) >= 0.0 && sqrt(x) * sqrt(x) == x
  }

  function Normalized(v: Vector, sqrt: real -> real): Vector {
    var norm := sqrt(SumSq(v));
    if norm == 0.0 then v else Scale(v, norm)
  }

  method L2Normalize(vec: Vector, sqrt: real -> real) returns (r: Vector)
    ensures r == Normalized(vec, sqrt)
  {
    var sumSq := 0.0;
    for i := 0 to |vec|
      invariant sumSq == SumSq(vec[..i])
    {
      assert vec[..i + 1][..i] == vec[..i];
      sumSq := sumSq + Square(vec[i]);
    }
    assert vec[..|vec|] == vec;
    var norm := sqrt(sumSq);
    if norm == 0.0 { return vec; }
    r := Scale(vec, norm);
  }

  // ---------- the embedding ----------

  /** Lower case, white space collapsed, trimmed. */
  function EmbeddedText(text: string): string {
    Trim(Collapse(Lower(text)))
  }

  /** The embedded text is the words of the text in lower case, with single blanks between them. */
  lemma EmbeddedWords(text: string)
    ensures EmbeddedText(text) == JoinWords(Words(Lower(text))) && Words(EmbeddedText(text)) == Words(Lower(text))
  {
    var t := Collapse(Lower(text));
    CollapseWords(Lower(text));
    TrimWords(t);
    CollapseBlanks(Lower(text));
    TrimBlanks(t);
    TrimIsTrimmed(t);
    CleanIsWords(EmbeddedText(text));
  }

  /** Text equal up to case and runs of white space is embedded alike, whatever the hash. */
  lemma SameWordsEmbedAlike(s: string, t: string, hash: string -> nat, sqrt: real -> real)
    requires Words(Lower(s)) == Words(Lower(t))
    ensures Embedding(s, hash, sqrt) == Embedding(t, hash, sqrt)
  {
    EmbeddedWords(s);
    EmbeddedWords(t);
  }

  function Embedding(text: string, hash: string -> nat, sqrt: real -> real): Option<Vector> {
    var t := EmbeddedText(text);
    if |t| < 3 then None else Some(Normalized(Reals(Histogram(hash, t, |t| - 2)), sqrt))
  }

  method StubEmbed(text: string, hash: string -> nat, sqrt: real -> real) returns (r: Option<Vector>)
    ensures r == Embedding(text, hash, sqrt)
  {
    var normalized := EmbeddedText(text);
    if |normalized| < 3 { return None; }
    var vec := new nat[DIMS](_ => 0);
    assert vec[..] == Histogram(hash, normalized, 0);
    var i := 0;
    while i <= |normalized| - 3
      invariant 0 <= i <= |normalized| - 2
      invariant vec[..] == Histogram(hash, normalized, i)
    {
      var idx := Bucket(hash, normalized, i);
      vec[idx] := vec[idx] + 1;
      i := i + 1;
    }
    var v := L2Normalize(Reals(vec[..]), sqrt);
    r := Some(v);
  }

  lemma {:induction false} ScaleSumSq(v: Vector, n: real)
    requires n != 0.0
    ensures Times(SumSq(Scale(v, n)), Square(n)) == SumSq(v)
  {
    if v != [] {
      var last := |v| - 1;
      ScaleSumSq(v[..last], n);
      assert Scale(v, n)[..last] == Scale(v[..last], n);
      QuotientSquare(v[last], n);
      AddProducts(SumSq(Scale(v[..last], n)), Square(Quotient(v[last], n)), Square(n));
    }
  }

  lemma AddProducts(p: real, q: real, m: real)
    ensures Times(p + q, m) == Times(p, m) + Times(q, m)
  {
  }

  lemma QuotientSquare(x: real, n: real)
    requires n != 0.0
    ensures Times(Square(Quotient(x, n)), Square(n)) == Square(x)
  {
    var q := x / n;
    assert q * n == x;
    assert (q * q) * (n * n) == (q * n) * (q * n);
  }

  lemma {:induction false} SumSqPositive(v: Vector, i: nat)
    requires i < |v| && v[i] != 0.0
    ensures SumSq(v) > 0.0
  {
    var last := |v| - 1;
    if i < last {
      assert v[..last][i] == v[i];
      SumSqPositive(v[..last], i);
    } else {
      SquarePositive(v[i]);
    }
  }

  /** A vector that is not zero is normalized to unit length. */
  lemma {:induction false} UnitLength(v: Vector, sqrt: real -> real)
    requires IsSqrt(sqrt) && SumSq(v) > 0.0
    ensures SumSq(Normalized(v, sqrt)) == 1.0
  {
    var s, n := SumSq(v), sqrt(SumSq(v));
    assert Square(n) == s;
    RootNotZero(n);
    ScaleSumSq(v, n);
    Cancel(SumSq(Scale(v, n)), s);
  }

  lemma RootNotZero(n: real)
    requires Square(n) > 0.0
    ensures n != 0.0
  {
  }

  lemma Cancel(x: real, s: real)
    requires s != 0.0 && Times(x, s) == s
    ensures x == 1.0
  {
    assert (x - 1.0) * s == 0.0;
  }

  lemma {:induction false} SomeBucket(h: seq<nat>)
    requires Total(h) > 0
    ensures exists i :: 0 <= i < |h| && h[i] > 0
  {
    var last := |h| - 1;
    if h[last] == 0 {
      SomeBucket(h[..last]);
      var i :| 0 <= i < last && h[..last][i] > 0;
      assert h[i] > 0;
    }
  }

  /** Every embedding is a unit vector without negative entries. */
  lemma EmbeddingIsUnit(text: string, hash: string -> nat, sqrt: real -> real)
    requires IsSqrt(sqrt) && Embedding(text, hash, sqrt).Some?
    ensures UnitPositive(Embedding(text, hash, sqrt).value)
  {
    var t := EmbeddedText(text);
    HistogramTotal(hash, t, |t| - 2);
    HistogramIsUnit(Histogram(hash, t, |t| - 2), sqrt);
  }

  ghost predicate UnitPositive(v: Vector) {
    |v| == DIMS && SumSq(v) == 1.0 && forall i :: 0 <= i < |v| ==> v[i] >= 0.0
  }

  lemma {:induction false} HistogramIsUnit(h: seq<nat>, sqrt: real -> real)
    requires IsSqrt(sqrt) && |h| == DIMS && Total(h) > 0
    ensures UnitPositive(Normalized(Reals(h), sqrt))
  {
    var v := Reals(h);
    SomeBucket(h);
    var b :| 0 <= b < |h| && h[b] > 0;
    SumSqPositive(v, b);
    UnitLength(v, sqrt);
    var n := sqrt(SumSq(v));
    if n != 0.0 {
      forall i | 0 <= i < |v|
        ensures Scale(v, n)[i] >= 0.0
      {
        QuotientNonNegative(v[i], n);
      }
    }
  }

  lemma QuotientNonNegative(x: real, n: real)
    requires x >= 0.0 && n > 0.0
    ensures Quotient(x, n) >= 0.0
  {
  }

  // ---------- similarity ----------

  /** Dot product, clamped to [-1, 1]; vectors that cannot be compared have similarity 0. */
  function Cosine(a: Vector, b: Vector): real {
    if |a| != |b| || |a| == 0 then 0.0
    else if Dot(a, b) > 1.0 then 1.0 else if Dot(a, b) < -1.0 then -1.0 else Dot(a, b)
  }

  method CosineSimilarity(a: Vector, b: Vector) returns (r: real)
    ensures r == Cosine(a, b)
  {
    if |a| != |b| || |a| == 0 { return 0.0; }
    var dot := 0.0;
    for i := 0 to |a|
      invariant dot == Dot(a[..i], b[..i])
    {
      assert a[..i + 1][..i] == a[..i] && b[..i + 1][..i] == b[..i];
      dot := dot + Times(a[i], b[i]);
    }
    assert a[..|a|] == a && b[..|b|] == b;
    if dot > 1.0 { return 1.0; }
    if dot < -1.0 { return -1.0; }
    return dot;
  }

  function Term(p: real, x: real, q: real, y: real): real {
    p * x - q * y
  }

  /** The vector p*a - q*b. */
  function Combine(a: Vector, b: Vector, p: real, q: real): (r: Vector)
    requires |a| == |b|
    ensures |r| == |a| && forall i :: 0 <= i < |a| ==> r[i] == Term(p, a[i], q, b[i])
  {
    seq(|a|, i requires 0 <= i < |a| => Term(p, a[i], q, b[i]))
  }

  /** p*p*s - 2*p*q*d + q*q*t */
  function Form(p: real, q: real, s: real, d: real, t: real): real {
    p * p * s - 2.0 * (p * q) * d + q * q * t
  }

  lemma {:induction false} CombineSumSq(a: Vector, b: Vector, p: real, q: real)
    requires |a| == |b|
    ensures SumSq(Combine(a, b, p, q)) == Form(p, q, SumSq(a), Dot(a, b), SumSq(b))
  {
    if a == [] {
      assert Combine(a, b, p, q) == [];
      FormZero(p, q);
    } else {
      var n := |a| - 1;
      CombineSumSq(a[..n], b[..n], p, q);
      assert Combine(a, b, p, q)[..n] == Combine(a[..n], b[..n], p, q);
      TermSquare(p, q, a[n], b[n]);
      FormAdds(p, q, SumSq(a[..n]), Dot(a[..n], b[..n]), SumSq(b[..n]), Square(a[n]), Times(a[n], b[n]), Square(b[n]));
    }
  }

  lemma FormZero(p: real, q: real)
    ensures Form(p, q, 0.0, 0.0, 0.0) == 0.0
  {
  }

  lemma TermSquare(p: real, q: real, x: real, y: real)
    ensures Square(Term(p, x, q, y)) == Form(p, q, Square(x), Times(x, y), Square(y))
  {
    var u, w := p * x, q * y;
    assert (u - w) * (u - w) == u * u - 2.0 * (u * w) + w * w;
    assert u * u == p * p * (x * x) && w * w == q * q * (y * y);
    assert u * w == (p * q) * (x * y);
  }

  lemma FormAdds(p: real, q: real, s: real, d: real, t: real, s': real, d': real, t': real)
    ensures Form(p, q, s, d, t) + Form(p, q, s', d', t') == Form(p, q, s + s', d + d', t + t')
  {
    Distribute(p * p, s, s');
    Distribute(2.0 * (p * q), d, d');
    Distribute(q * q, t, t');
  }

  lemma Distribute(k: real, x: real, y: real)
    ensures k * (x + y) == k * x + k * y
  {
  }

  lemma {:induction false} SumSqZero(v: Vector)
    requires SumSq(v) == 0.0
    ensures forall i :: 0 <= i < |v| ==> v[i] == 0.0
  {
    forall i | 0 <= i < |v|
      ensures v[i] == 0.0
    {
      if v[i] != 0.0 { SumSqPositive(v, i); }
    }
  }

  lemma {:induction false} DotZero(a: Vector, b: Vector)
    requires |a| == |b| && forall i :: 0 <= i < |b| ==> b[i] == 0.0
    ensures Dot(a, b) == 0.0
  {
    if a != [] { DotZero(a[..|a| - 1], b[..|b| - 1]); }
  }

  /** The Cauchy-Schwarz inequality. */
  lemma {:induction false} CauchySchwarz(a: Vector, b: Vector)
    requires |a| == |b|
    ensures Square(Dot(a, b)) <= SumSq(a) * SumSq(b)
  {
    var x, y, d := SumSq(a), SumSq(b), Dot(a, b);
    if y == 0.0 {
      SumSqZero(b);
      DotZero(a, b);
    } else {
      CombineSumSq(a, b, y, d);
      Discriminant(x, y, d);
    }
  }

  lemma Discriminant(x: real, y: real, d: real)
    requires y > 0.0 && Form(y, d, x, d, y) >= 0.0
    ensures Square(d) <= x * y
  {
    var z := x * y - d * d;
    assert Form(y, d, x, d, y) == y * z;
    assert z < 0.0 ==> y * z < 0.0;
  }

  lemma {:induction false} DotNonNegative(a: Vector, b: Vector)
    requires |a| == |b| && forall i :: 0 <= i < |a| ==> a[i] >= 0.0 && b[i] >= 0.0
    ensures Dot(a, b) >= 0.0
  {
    if a != [] {
      var n := |a| - 1;
      DotNonNegative(a[..n], b[..n]);
      assert a[n] * b[n] >= 0.0;
    }
  }

  /** Unit vectors have a dot product of at most 1, and exactly 1 when they are equal. */
  lemma {:induction false} UnitDot(a: Vector, b: Vector)
    requires |a| == |b| && SumSq(a) == 1.0 && SumSq(b) == 1.0
    ensures -1.0 <= Dot(a, b) <= 1.0
    ensures Dot(a, b) == 1.0 <==> a == b
  {
    CauchySchwarz(a, b);
    SquareAtMostOne(Dot(a, b));
    var c := Combine(a, b, 1.0, 1.0);
    CombineSumSq(a, b, 1.0, 1.0);
    UnitForm(Dot(a, b));
    assert forall i :: 0 <= i < |a| ==> (c[i] == 0.0 <==> a[i] == b[i]);
    if Dot(a, b) == 1.0 {
      SumSqZero(c);
    }
    if a == b {
      ZeroSumSq(c);
    }
  }

  lemma UnitForm(d: real)
    ensures Form(1.0, 1.0, 1.0, d, 1.0) == 2.0 - 2.0 * d
  {
  }

  lemma SquareAtMostOne(d: real)
    requires Square(d) <= 1.0
    ensures -1.0 <= d <= 1.0
  {
    assert d > 1.0 ==> d * d > 1.0;
    assert d < -1.0 ==> (-d) * (-d) > 1.0;
  }

  lemma {:induction false} ZeroSumSq(v: Vector)
    requires forall i :: 0 <= i < |v| ==> v[i] == 0.0
    ensures SumSq(v) == 0.0
  {
    if v != [] { ZeroSumSq(v[..|v| - 1]); }
  }

  /** The similarity of two embedded texts is their dot product, between 0 and 1: neither clamp ever acts.
      It is 1 exactly for equal embeddings, in particular for equal texts. */
  lemma SimilarityInRange(s: string, t: string, hash: string -> nat, sqrt: real -> real)
    requires IsSqrt(sqrt) && Embedding(s, hash, sqrt).Some? && Embedding(t, hash, sqrt).Some?
    ensures var a, b := Embedding(s, hash, sqrt).value, Embedding(t, hash, sqrt).value;
      && |a| == |b|
      && Cosine(a, b) == Dot(a, b)
      && 0.0 <= Cosine(a, b) <= 1.0
      && (Cosine(a, b) == 1.0 <==> a == b)
      && (Words(Lower(s)) == Words(Lower(t)) ==> Cosine(a, b) == 1.0)
  {
    if Words(Lower(s)) == Words(Lower(t)) { SameWordsEmbedAlike(s, t, hash, sqrt); }
    EmbeddingIsUnit(s, hash, sqrt);
    EmbeddingIsUnit(t, hash, sqrt);
    var a, b := Embedding(s, hash, sqrt).value, Embedding(t, hash, sqrt).value;
    UnitDot(a, b);
    DotNonNegative(a, b);
  }

  /** In particular with the hash in force. */
  lemma StubSimilarityInRange(s: string, t: string, sqrt: real -> real)
    requires IsSqrt(sqrt) && Embedding(s, TrigramHash, sqrt).Some? && Embedding(t, TrigramHash, sqrt).Some?
    ensures var a, b := Embedding(s, TrigramHash, sqrt).value, Embedding(t, TrigramHash, sqrt).value;
      && Cosine(a, b) == Dot(a, b) && 0.0 <= Cosine(a, b) <= 1.0
      && (Words(Lower(s)) == Words(Lower(t)) ==> Cosine(a, b) == 1.0)
  {
    SimilarityInRange(s, t, TrigramHash, sqrt);
  }
}
