/** Floating-point values are modelled as exact reals. `math.log10` and
    `math.sqrt` are library calls whose code is not part of this model, so they
    are a parameter, and the few laws the proofs need are stated by `Lawful`. */
module RealMath {

  datatype Math = Math(log10: real -> real, sqrt: real -> real)

  /** Laws of the real logarithm to base 10 and of the square root that the
      proofs rely on. */
  ghost predicate Lawful(m: Math) {
    && m.log10(1.0) == 0.0
    && (forall x, y :: 0.0 < x <= y ==> m.log10(x) <= m.log10(y))
    && m.sqrt(0.0) == 0.0
    && (forall x :: 0.0 < x ==> 0.0 < m.sqrt(x) && m.sqrt(x) * m.sqrt(x) == x)
  }

  /** `sum(m.values())` over a mapping whose iteration order does not matter. */
  ghost function Sum<K>(m: map<K, real>): real
    decreases |m|
  {
    if m.Keys == {} then 0.0
    else
      var k :| k in m.Keys;
      m[k] + Sum(m - {k})
  }

  /** The sum does not depend on which key is taken out first. */
  lemma {:induction false} SumRemove<K>(m: map<K, real>, k: K)
    requires k in m
    ensures Sum(m) == m[k] + Sum(m - {k})
    decreases |m|
  {
    var x :| x in m.Keys && Sum(m) == m[x] + Sum(m - {x});
    if x != k {
      var mx, mk := m - {x}, m - {k};
      assert |mx| < |m|;
      SumRemove(mx, k);
      SumRemove(mk, x);
      assert mx - {k} == mk - {x};
    }
  }

  lemma SumPutNew<K>(m: map<K, real>, k: K, v: real)
    requires k !in m
    ensures Sum(m[k := v]) == Sum(m) + v
  {
    SumRemove(m[k := v], k);
    assert m[k := v] - {k} == m;
  }

  lemma SumPutOld<K>(m: map<K, real>, k: K, v: real)
    requires k in m
    ensures Sum(m[k := v]) == Sum(m) - m[k] + v
  {
    SumRemove(m[k := v], k);
    SumRemove(m, k);
    assert m[k := v] - {k} == m - {k};
  }

  /** Counts as reals, for summing and averaging. */
  ghost function Reals<K>(m: map<K, nat>): (r: map<K, real>)
    ensures r.Keys == m.Keys && forall k :: k in r ==> r[k] == m[k] as real
  {
    map k | k in m :: m[k] as real
  }

  /** Multiplication behind a name, so that the solver treats products of
      looked-up values by congruence. */
  function Times(a: real, b: real): real {
    a * b
  }

  ghost function Squares<K>(m: map<K, real>): (r: map<K, real>)
    ensures r.Keys == m.Keys
    ensures forall k :: k in r ==> r[k] == Times(m[k], m[k])
  {
    map k | k in m :: Times(m[k], m[k])
  }

  ghost function Scaled<K>(m: map<K, real>, c: real): (r: map<K, real>)
    ensures r.Keys == m.Keys
    ensures forall k :: k in r ==> r[k] == Times(m[k], c)
  {
    map k | k in m :: Times(m[k], c)
  }

  /** Summation distributes over a constant factor. */
  lemma {:induction false} SumScaled<K>(m: map<K, real>, c: real)
    ensures Sum(Scaled(m, c)) == Times(Sum(m), c)
    decreases |m|
  {
    if m.Keys != {} {
      var k :| k in m;
      var s, rest := Scaled(m, c), m - {k};
      var total, x, y, base, a, b := Sum(s), s[k], Sum(s - {k}), Sum(m), m[k], Sum(rest);
      assert total == x + y by { SumRemove(s, k); }
      assert base == a + b by { SumRemove(m, k); }
      assert x == Times(a, c);
      assert y == Times(b, c) by {
        ScaledRemove(m, c, k);
        SumScaled(rest, c);
      }
      Distribute(total, x, y, base, a, b, c);
    }
  }

  lemma ScaledRemove<K>(m: map<K, real>, c: real, k: K)
    ensures Scaled(m, c) - {k} == Scaled(m - {k}, c)
  {
    var l, r := Scaled(m, c) - {k}, Scaled(m - {k}, c);
    forall j | j in r
      ensures l[j] == r[j]
    {
      var x := m[j];
      assert l[j] == x * c;
      assert r[j] == x * c;
    }
  }

  lemma Distribute(total: real, x: real, y: real, base: real, a: real, b: real, c: real)
    requires total == x + y && x == Times(a, c) && y == Times(b, c) && base == a + b
    ensures total == Times(base, c)
  {
  }

  /** Every value non-negative, so is the sum; and one positive value makes it positive. */
  lemma {:induction false} SumPositive<K>(m: map<K, real>, k: K)
    requires forall j :: j in m ==> m[j] >= 0.0
    requires k in m && m[k] > 0.0
    ensures Sum(m) > 0.0
  {
    SumRemove(m, k);
    SumNonNegative(m - {k});
  }

  lemma {:induction false} SumNonNegative<K>(m: map<K, real>)
    requires forall j :: j in m ==> m[j] >= 0.0
    ensures Sum(m) >= 0.0
    decreases |m|
  {
    if m.Keys != {} {
      var k :| k in m;
      SumRemove(m, k);
      SumNonNegative(m - {k});
    }
  }

  /** All values zero, so is the sum. */
  lemma {:induction false} SumZero<K>(m: map<K, real>)
    requires forall j :: j in m ==> m[j] == 0.0
    ensures Sum(m) == 0.0
    decreases |m|
  {
    if m.Keys != {} {
      var k :| k in m;
      SumRemove(m, k);
      SumZero(m - {k});
    }
  }

  /** Cosine normalisation: multiplying every weight by 1/sqrt(sum of squares)
      gives weights whose squares sum to one. */
  lemma CosineUnit<K>(math: Math, w: map<K, real>)
    requires Lawful(math)
    requires Sum(Squares(w)) > 0.0
    ensures Sum(Squares(Scaled(w, 1.0 / math.sqrt(Sum(Squares(w)))))) == 1.0
  {
    var sq := Squares(w);
    var s := Sum(sq);
    var q := math.sqrt(s);
    var f := 1.0 / q;
    var g := Times(f, f);
    var sw := Scaled(w, f);
    var lhs, rhs := Squares(sw), Scaled(sq, g);
    forall k | k in w
      ensures lhs[k] == rhs[k]
    {
      ScaledSquare(w[k], f);
    }
    assert lhs == rhs;
    SumScaled(sq, g);
    InverseSquare(s, q, f, g);
  }

  lemma ScaledSquare(x: real, f: real)
    ensures Times(Times(x, f), Times(x, f)) == Times(Times(x, x), Times(f, f))
  {
  }

  lemma InverseSquare(s: real, q: real, f: real, g: real)
    requires q > 0.0 && q * q == s && f == 1.0 / q && g == Times(f, f)
    ensures Times(s, g) == 1.0
  {
    assert q * f == 1.0;
    assert s * g == (q * f) * (q * f);
  }

  /** idf = log10(N / df) never grows with the document frequency. */
  lemma IdfAntitone(math: Math, n: nat, df1: nat, df2: nat)
    requires Lawful(math)
    requires 0 < df1 <= df2 && 0 < n
    ensures math.log10(n as real / df2 as real) <= math.log10(n as real / df1 as real)
  {
    var a, b := n as real / df2 as real, n as real / df1 as real;
    assert a * (df2 as real) == n as real;
    assert b * (df1 as real) == n as real;
    assert 0.0 < a <= b;
  }

  /** `sum(...)` over the values of a mapping, one key at a time. */
  method SumValues<K>(m: map<K, real>) returns (s: real)
    ensures s == Sum(m)
  {
    s := 0.0;
    var rest := m;
    while rest.Keys != {}
      invariant s + Sum(rest) == Sum(m)
      decreases |rest|
    {
      var k :| k in rest.Keys;
      SumRemove(rest, k);
      s := s + rest[k];
      rest := rest - {k};
    }
  }
}
