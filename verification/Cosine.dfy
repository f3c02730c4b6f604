/**
 Sparse vectors and the cosine of backend/app/nlp/core.py, over exact reals.

 The square root is an input with its defining property. Sums run over sets of keys, because the order in
 which a dictionary is walked does not matter for exact reals.
 */
module Cosine {

  type Vector = map<string, real>

  ghost predicate IsSqrt(sqrt: real -> real) {
    forall x :: x >= 0.0 ==> sqrt(x) >= 0.0 && Mul(sqrt(x), sqrt(x)) == x
  }

  // A product, named so that most proofs can treat it as a symbol.
  function Mul(x: real, y: real): real {
    x * y
  }

  function At(v: Vector, k: string): real {
    if k in v then v[k] else 0.0
  }

  // The sum of a[k] * b[k] over the keys in `s`.
  ghost function Dot(a: Vector, b: Vector, s: set<string>): real {
    if s == {} then 0.0
    else
      var k :| k in s;
      Mul(At(a, k), At(b, k)) + Dot(a, b, s - {k})
  }

  ghost function Shared(a: Vector, b: Vector): set<string> {
    a.Keys * b.Keys
  }

  /** `cosine_similarity` */
  ghost function Similarity(sqrt: real -> real, a: Vector, b: Vector): real {
    if a == map[] || b == map[] then 0.0
    else
      var dot := Dot(a, b, Shared(a, b));
      if dot == 0.0 then 0.0
      else
        var magA, magB := sqrt(Dot(a, a, a.Keys)), sqrt(Dot(b, b, b.Keys));
        if magA == 0.0 || magB == 0.0 then 0.0
        else Quotient(dot, magA, magB)
  }

  function Quotient(dot: real, magA: real, magB: real): real
    requires magA != 0.0 && magB != 0.0
  {
    dot / (magA * magB)
  }

  // ----- Products -----

  lemma MulAdds(c: real, x: real, y: real)
    ensures Mul(c, x + y) == Mul(c, x) + Mul(c, y)
    ensures Mul(x + y, c) == Mul(x, c) + Mul(y, c)
    ensures Mul(c, 0.0) == Mul(0.0, c) == 0.0
    ensures Mul(c, -x) == -Mul(c, x)
  {
  }

  lemma MulReorders(x: real, y: real, z: real)
    ensures Mul(x, y) == Mul(y, x)
    ensures Mul(Mul(x, y), z) == Mul(x, Mul(y, z)) == Mul(Mul(x, z), y)
  {
    assert x * y * z == x * z * y;
  }

  lemma MulSign(x: real, y: real)
    ensures x > 0.0 && y > 0.0 ==> Mul(x, y) > 0.0
    ensures x > 0.0 && y < 0.0 ==> Mul(x, y) < 0.0
    ensures Mul(x, y) == 0.0 <==> x == 0.0 || y == 0.0
  {
    if x != 0.0 && x * y == 0.0 {
      assert y == x * y / x;
    }
  }

  lemma Square(x: real)
    ensures Mul(x, x) >= 0.0
    ensures Mul(x, x) == 0.0 <==> x == 0.0
  {
    MulSign(x, x);
    MulSign(-x, -x);
    assert x * x == (-x) * (-x);
  }

  lemma Cancel(c: real, x: real, y: real)
    requires c != 0.0 && Mul(c, x) == Mul(c, y)
    ensures x == y
  {
    MulSign(c, x - y);
    MulAdds(c, x, -y);
    MulAdds(c, y, y);
  }

  // ----- Sums over sets of keys -----

  lemma {:induction false} DotTakeOut(a: Vector, b: Vector, s: set<string>, k: string)
    requires k in s
    ensures Dot(a, b, s) == Mul(At(a, k), At(b, k)) + Dot(a, b, s - {k})
    decreases |s|
  {
    hide Mul;
    var j :| j in s && Dot(a, b, s) == Mul(At(a, j), At(b, j)) + Dot(a, b, s - {j});
    if j != k {
      DotTakeOut(a, b, s - {j}, k);
      DotTakeOut(a, b, s - {k}, j);
      assert s - {j} - {k} == s - {k} - {j};
    }
  }

  lemma {:induction false} DotSign(a: Vector, b: Vector, s: set<string>)
    requires forall k :: k in s ==> Mul(At(a, k), At(b, k)) >= 0.0
    ensures Dot(a, b, s) >= 0.0
    ensures Dot(a, b, s) > 0.0 <==> exists k :: k in s && Mul(At(a, k), At(b, k)) != 0.0
    decreases |s|
  {
    hide Mul;
    if s != {} {
      var k :| k in s;
      DotTakeOut(a, b, s, k);
      DotSign(a, b, s - {k});
    }
  }

  lemma {:induction false} DotOfPart(a: Vector, s: set<string>, t: set<string>)
    requires s <= t
    ensures 0.0 <= Dot(a, a, s) <= Dot(a, a, t)
    ensures Dot(a, a, s) == Dot(a, a, t) <==> forall k :: k in t && k !in s ==> At(a, k) == 0.0
    decreases |t - s|
  {
    hide Mul, At;
    if s == t {
      forall k
        ensures Mul(At(a, k), At(a, k)) >= 0.0
      {
        Square(At(a, k));
      }
      DotSign(a, a, s);
    } else {
      var k :| k in t && k !in s;
      assert t - s == (t - {k} - s) + {k};
      DotOfPart(a, s, t - {k});
      DotTakeOut(a, a, t, k);
      Square(At(a, k));
    }
  }

  lemma {:induction false} DotCommutes(a: Vector, b: Vector, s: set<string>)
    ensures Dot(a, b, s) == Dot(b, a, s)
    decreases |s|
  {
    hide Mul;
    if s != {} {
      var k :| k in s;
      DotTakeOut(a, b, s, k);
      DotTakeOut(b, a, s, k);
      DotCommutes(a, b, s - {k});
      MulReorders(At(a, k), At(b, k), 0.0);
    }
  }

  // ----- Cauchy and Schwarz -----

  // The sum of (x * a[k] - y * b[k])^2 over the keys in `s`.
  ghost function Residual(a: Vector, b: Vector, x: real, y: real, s: set<string>): real {
    if s == {} then 0.0
    else
      var k :| k in s;
      Mul(Gap(a, b, x, y, k), Gap(a, b, x, y, k)) + Residual(a, b, x, y, s - {k})
  }

  ghost function Gap(a: Vector, b: Vector, x: real, y: real, k: string): real {
    Mul(x, At(a, k)) - Mul(y, At(b, k))
  }

  lemma ExpandSquare(x: real, y: real, p: real, q: real)
    ensures var gap := Mul(x, p) - Mul(y, q);
      Mul(gap, gap) == Mul(Mul(x, x), Mul(p, p)) - 2.0 * Mul(Mul(x, y), Mul(p, q)) + Mul(Mul(y, y), Mul(q, q))
  {
    var u, w := x * p, y * q;
    assert (u - w) * (u - w) == u * u - 2.0 * (u * w) + w * w;
    assert u * u == (x * x) * (p * p) && w * w == (y * y) * (q * q) && u * w == (x * y) * (p * q);
  }

  lemma {:induction false} ResidualExpands(a: Vector, b: Vector, x: real, y: real, s: set<string>)
    ensures Residual(a, b, x, y, s)
         == Mul(Mul(x, x), Dot(a, a, s)) - 2.0 * Mul(Mul(x, y), Dot(a, b, s)) + Mul(Mul(y, y), Dot(b, b, s))
    decreases |s|
  {
    hide Mul, At;
    if s == {} {
      MulAdds(Mul(x, x), 0.0, 0.0);
      MulAdds(Mul(x, y), 0.0, 0.0);
      MulAdds(Mul(y, y), 0.0, 0.0);
    } else {
      var k :| k in s && Residual(a, b, x, y, s)
        == Mul(Gap(a, b, x, y, k), Gap(a, b, x, y, k)) + Residual(a, b, x, y, s - {k});
      var p, q, rest := At(a, k), At(b, k), s - {k};
      ResidualExpands(a, b, x, y, rest);
      DotTakeOut(a, a, s, k);
      DotTakeOut(a, b, s, k);
      DotTakeOut(b, b, s, k);
      ExpandSquare(x, y, p, q);
      assert Gap(a, b, x, y, k) == Mul(x, p) - Mul(y, q);
      MulAdds(Mul(x, x), Mul(p, p), Dot(a, a, rest));
      MulAdds(Mul(x, y), Mul(p, q), Dot(a, b, rest));
      MulAdds(Mul(y, y), Mul(q, q), Dot(b, b, rest));
    }
  }

  lemma {:induction false} ResidualSign(a: Vector, b: Vector, x: real, y: real, s: set<string>)
    ensures Residual(a, b, x, y, s) >= 0.0
    ensures Residual(a, b, x, y, s) == 0.0 ==> forall k :: k in s ==> Gap(a, b, x, y, k) == 0.0
    decreases |s|
  {
    hide Mul, Gap;
    if s != {} {
      var k :| k in s && Residual(a, b, x, y, s)
        == Mul(Gap(a, b, x, y, k), Gap(a, b, x, y, k)) + Residual(a, b, x, y, s - {k});
      ResidualSign(a, b, x, y, s - {k});
      Square(Gap(a, b, x, y, k));
    }
  }

  ghost predicate Proportional(a: Vector, b: Vector, s: set<string>) {
    forall k, l :: k in s && l in s ==> Mul(At(a, k), At(b, l)) == Mul(At(a, l), At(b, k))
  }

  /** The inequality, on any set of keys, and when it is an equation. */
  lemma CauchySchwarz(a: Vector, b: Vector, s: set<string>)
    ensures Mul(Dot(a, b, s), Dot(a, b, s)) <= Mul(Dot(a, a, s), Dot(b, b, s))
    ensures Mul(Dot(a, b, s), Dot(a, b, s)) == Mul(Dot(a, a, s), Dot(b, b, s)) <==> Proportional(a, b, s)
  {
    hide Mul, At;
    var aa, ab, bb := Dot(a, a, s), Dot(a, b, s), Dot(b, b, s);
    DotOfPart(b, {}, s);
    if bb == 0.0 {
      VanishingDot(a, b, s);
      MulAdds(aa, 0.0, 0.0);
      MulAdds(0.0, 0.0, 0.0);
      forall k, l | k in s && l in s
        ensures Mul(At(a, k), At(b, l)) == Mul(At(a, l), At(b, k))
      {
        MulAdds(At(a, k), 0.0, 0.0);
        MulAdds(At(a, l), 0.0, 0.0);
      }
    } else {
      ResidualExpands(a, b, bb, ab, s);
      ResidualSign(a, b, bb, ab, s);
      FactorResidual(aa, ab, bb);
      if Mul(ab, ab) == Mul(aa, bb) {
        EqualMeansProportional(a, b, s, ab, bb);
      }
      if Proportional(a, b, s) {
        ProportionalMeansEqual(a, b, s);
      }
    }
  }

  lemma {:induction false} VanishingDot(a: Vector, b: Vector, s: set<string>)
    requires forall k :: k in s ==> At(b, k) == 0.0
    ensures Dot(a, b, s) == 0.0
    decreases |s|
  {
    hide Mul, At;
    if s != {} {
      var k :| k in s;
      DotTakeOut(a, b, s, k);
      VanishingDot(a, b, s - {k});
      MulAdds(At(a, k), 0.0, 0.0);
    }
  }

  lemma FactorResidual(aa: real, ab: real, bb: real)
    requires bb > 0.0
    ensures var residual := Mul(Mul(bb, bb), aa) - 2.0 * Mul(Mul(bb, ab), ab) + Mul(Mul(ab, ab), bb);
      && (residual >= 0.0 ==> Mul(ab, ab) <= Mul(aa, bb))
      && (residual == 0.0 <==> Mul(ab, ab) == Mul(aa, bb))
  {
    hide Mul;
    MulReorders(bb, bb, aa);
    MulReorders(bb, aa, 0.0);
    MulReorders(bb, ab, ab);
    MulReorders(ab, ab, bb);
    MulReorders(Mul(ab, ab), bb, 0.0);
    MulAdds(bb, Mul(aa, bb), -Mul(ab, ab));
    MulAdds(bb, Mul(ab, ab), 0.0);
    MulSign(bb, Mul(aa, bb) - Mul(ab, ab));
  }

  lemma EqualMeansProportional(a: Vector, b: Vector, s: set<string>, ab: real, bb: real)
    requires bb > 0.0 && forall k :: k in s ==> Gap(a, b, bb, ab, k) == 0.0
    ensures Proportional(a, b, s)
  {
    hide Mul, At;
    forall k, l | k in s && l in s
      ensures Mul(At(a, k), At(b, l)) == Mul(At(a, l), At(b, k))
    {
      assert Gap(a, b, bb, ab, k) == Gap(a, b, bb, ab, l) == 0.0;
      CrossMultiply(bb, ab, At(a, k), At(b, k), At(a, l), At(b, l));
    }
  }

  lemma CrossMultiply(bb: real, ab: real, p: real, q: real, r: real, t: real)
    requires bb > 0.0 && Mul(bb, p) == Mul(ab, q) && Mul(bb, r) == Mul(ab, t)
    ensures Mul(p, t) == Mul(r, q)
  {
    hide Mul;
    MulReorders(bb, p, t);
    MulReorders(bb, r, q);
    MulReorders(ab, q, t);
    MulReorders(ab, t, q);
    Cancel(bb, Mul(p, t), Mul(r, q));
  }

  // Every key's row, summed: what a proportional pair says about its dot products.
  lemma {:induction false} ProportionalRow(a: Vector, b: Vector, c: Vector, s: set<string>, l: string)
    requires forall k :: k in s ==> Mul(At(a, k), At(b, l)) == Mul(At(a, l), At(b, k))
    ensures Mul(Dot(c, a, s), At(b, l)) == Mul(Dot(c, b, s), At(a, l))
    decreases |s|
  {
    hide Mul, At;
    if s == {} {
      MulAdds(At(b, l), 0.0, 0.0);
      MulAdds(At(a, l), 0.0, 0.0);
    } else {
      var k :| k in s;
      ProportionalRow(a, b, c, s - {k}, l);
      DotTakeOut(c, a, s, k);
      DotTakeOut(c, b, s, k);
      MulAdds(At(b, l), Mul(At(c, k), At(a, k)), Dot(c, a, s - {k}));
      MulAdds(At(a, l), Mul(At(c, k), At(b, k)), Dot(c, b, s - {k}));
      MulReorders(At(c, k), At(a, k), At(b, l));
      MulReorders(At(c, k), At(b, k), At(a, l));
      MulReorders(At(a, l), At(b, k), 0.0);
    }
  }

  lemma ProportionalMeansEqual(a: Vector, b: Vector, s: set<string>)
    requires Proportional(a, b, s) && Dot(b, b, s) > 0.0
    ensures Mul(Dot(a, b, s), Dot(a, b, s)) == Mul(Dot(a, a, s), Dot(b, b, s))
  {
    hide Mul, At;
    var aa, ab, bb := Dot(a, a, s), Dot(a, b, s), Dot(b, b, s);
    forall k
      ensures Mul(At(b, k), At(b, k)) >= 0.0
    {
      Square(At(b, k));
    }
    DotSign(b, b, s);
    var l :| l in s && Mul(At(b, l), At(b, l)) != 0.0;
    Square(At(b, l));
    ProportionalRow(a, b, a, s, l);
    ProportionalRow(a, b, b, s, l);
    DotCommutes(a, b, s);
    CancelRow(aa, ab, bb, At(a, l), At(b, l));
  }

  lemma CancelRow(aa: real, ab: real, bb: real, p: real, q: real)
    requires q != 0.0 && Mul(aa, q) == Mul(ab, p) && Mul(ab, q) == Mul(bb, p)
    ensures Mul(ab, ab) == Mul(aa, bb)
  {
    hide Mul;
    MulReorders(aa, bb, q);
    MulReorders(ab, p, bb);
    MulReorders(bb, p, 0.0);
    MulReorders(ab, ab, q);
    MulReorders(q, Mul(ab, ab), 0.0);
    MulReorders(q, Mul(aa, bb), 0.0);
    Cancel(q, Mul(ab, ab), Mul(aa, bb));
  }

  // ----- The cosine -----

  // Coordinate by coordinate the two vectors do not point apart.
  ghost predicate Aligned(a: Vector, b: Vector) {
    forall k :: k in Shared(a, b) ==> Mul(At(a, k), At(b, k)) >= 0.0
  }

  lemma SqrtPositive(sqrt: real -> real, x: real)
    requires IsSqrt(sqrt) && x > 0.0
    ensures sqrt(x) > 0.0 && Mul(sqrt(x), sqrt(x)) == x
  {
    Square(sqrt(x));
  }

  lemma SquaresOrder(x: real, y: real)
    requires x > 0.0 && y > 0.0
    ensures Mul(x, x) <= Mul(y, y) <==> x <= y
    ensures Mul(x, x) == Mul(y, y) <==> x == y
  {
    hide Mul;
    MulSign(x + y, y - x);
    MulSign(x + y, x - y);
    MulAdds(x + y, y, -x);
    MulAdds(x + y, x, -y);
    MulAdds(x + y, x, y);
    MulAdds(x, x, y);
    MulAdds(y, x, y);
    MulReorders(x, y, 0.0);
  }

  lemma UnitQuotient(d: real, x: real, y: real)
    requires d > 0.0 && x > 0.0 && y > 0.0 && Mul(d, d) <= Mul(Mul(x, x), Mul(y, y))
    ensures 0.0 < Quotient(d, x, y) <= 1.0
    ensures Quotient(d, x, y) == 1.0 <==> Mul(d, d) == Mul(Mul(x, x), Mul(y, y))
  {
    var m := Mul(x, y);
    MulSign(x, y);
    assert Mul(m, m) == Mul(Mul(x, x), Mul(y, y)) by {
      hide Mul;
      MulReorders(x, y, m);
      MulReorders(y, x, y);
      MulReorders(x, x, Mul(y, y));
      MulReorders(y, Mul(x, y), 0.0);
      MulReorders(x, y, y);
    }
    SquaresOrder(d, m);
    DivideByLarger(d, m);
  }

  lemma DivideByLarger(d: real, m: real)
    requires 0.0 < d <= m
    ensures 0.0 < d / m <= 1.0
    ensures d / m == 1.0 <==> d == m
  {
    if d / m == 1.0 {
      assert d == d / m * m;
    }
  }

  lemma WidenBound(d: real, pa: real, pb: real, aa: real, bb: real)
    requires d > 0.0 && 0.0 <= pa <= aa && 0.0 <= pb <= bb && Mul(d, d) <= Mul(pa, pb)
    ensures aa > 0.0 && bb > 0.0 && Mul(d, d) <= Mul(aa, bb)
    ensures Mul(d, d) == Mul(aa, bb) <==> Mul(d, d) == Mul(pa, pb) && pa == aa && pb == bb
  {
    hide Mul;
    MulSign(d, d);
    MulSign(pa, pb);
    MulSign(aa - pa, pb);
    MulSign(aa, bb - pb);
    MulAdds(pb, pa, aa - pa);
    MulAdds(aa, pb, bb - pb);
  }

  /**
   For vectors that do not point apart, the cosine is in [0, 1]. It is positive when they overlap in a coordinate,
   and 1 when moreover they vanish outside the shared keys and are proportional there.
   */
  lemma CosineOfAligned(sqrt: real -> real, a: Vector, b: Vector)
    requires IsSqrt(sqrt) && Aligned(a, b)
    ensures 0.0 <= Similarity(sqrt, a, b) <= 1.0
    ensures Similarity(sqrt, a, b) > 0.0 <==> exists k :: k in Shared(a, b) && Mul(At(a, k), At(b, k)) != 0.0
    ensures Similarity(sqrt, a, b) == 1.0 <==>
      (&& Similarity(sqrt, a, b) > 0.0
       && Proportional(a, b, Shared(a, b))
       && (forall k :: k in a.Keys && k !in b ==> At(a, k) == 0.0)
       && (forall k :: k in b.Keys && k !in a ==> At(b, k) == 0.0))
  {
    hide Mul, At, Quotient;
    var s := Shared(a, b);
    var dot, aa, bb := Dot(a, b, s), Dot(a, a, a.Keys), Dot(b, b, b.Keys);
    DotSign(a, b, s);
    if dot > 0.0 {
      CauchySchwarz(a, b, s);
      DotOfPart(a, s, a.Keys);
      DotOfPart(b, s, b.Keys);
      WidenBound(dot, Dot(a, a, s), Dot(b, b, s), aa, bb);
      SqrtPositive(sqrt, aa);
      SqrtPositive(sqrt, bb);
      UnitQuotient(dot, sqrt(aa), sqrt(bb));
    }
  }

  // The dot product against the lengths, for any vectors: the square is bounded, and where it is not zero neither is a length.
  lemma DotWithinLengths(a: Vector, b: Vector)
    ensures var dot, aa, bb := Dot(a, b, Shared(a, b)), Dot(a, a, a.Keys), Dot(b, b, b.Keys);
      && (dot != 0.0 ==> aa > 0.0 && bb > 0.0)
      && Mul(dot, dot) <= Mul(aa, bb)
  {
    hide Mul, At;
    var s := Shared(a, b);
    var dot := Dot(a, b, s);
    CauchySchwarz(a, b, s);
    DotOfPart(a, s, a.Keys);
    DotOfPart(b, s, b.Keys);
    DotOfPart(a, {}, s);
    DotOfPart(b, {}, s);
    if dot != 0.0 {
      WidenSquare(dot, Dot(a, a, s), Dot(b, b, s), Dot(a, a, a.Keys), Dot(b, b, b.Keys));
    } else {
      MulAdds(0.0, 0.0, 0.0);
      MulSign(Dot(a, a, a.Keys), Dot(b, b, b.Keys));
    }
  }

  lemma WidenSquare(d: real, pa: real, pb: real, aa: real, bb: real)
    requires d != 0.0 && 0.0 <= pa <= aa && 0.0 <= pb <= bb && Mul(d, d) <= Mul(pa, pb)
    ensures aa > 0.0 && bb > 0.0 && Mul(d, d) <= Mul(aa, bb)
  {
    if d > 0.0 {
      WidenBound(d, pa, pb, aa, bb);
    } else {
      NegatedSquare(d);
      WidenBound(-d, pa, pb, aa, bb);
    }
  }

  lemma NegatedSquare(d: real)
    ensures Mul(-d, -d) == Mul(d, d)
  {
  }

  lemma NegatedQuotient(d: real, x: real, y: real)
    requires x > 0.0 && y > 0.0
    ensures x * y > 0.0 && Quotient(-d, x, y) == -Quotient(d, x, y)
  {
  }

  /** For any weights the cosine is within [-1, 1], and has the sign of the dot product. */
  lemma CosineOfAny(sqrt: real -> real, a: Vector, b: Vector)
    requires IsSqrt(sqrt)
    ensures -1.0 <= Similarity(sqrt, a, b) <= 1.0
    ensures Similarity(sqrt, a, b) > 0.0 <==> Dot(a, b, Shared(a, b)) > 0.0
    ensures Similarity(sqrt, a, b) < 0.0 <==> Dot(a, b, Shared(a, b)) < 0.0
  {
    hide Mul, At, Quotient;
    var dot, aa, bb := Dot(a, b, Shared(a, b)), Dot(a, a, a.Keys), Dot(b, b, b.Keys);
    DotWithinLengths(a, b);
    if dot != 0.0 {
      SqrtPositive(sqrt, aa);
      SqrtPositive(sqrt, bb);
      if dot > 0.0 {
        UnitQuotient(dot, sqrt(aa), sqrt(bb));
      } else {
        NegatedSquare(dot);
        UnitQuotient(-dot, sqrt(aa), sqrt(bb));
        NegatedQuotient(-dot, sqrt(aa), sqrt(bb));
      }
    }
  }

  /** The cosine times both lengths is the dot product. */
  lemma CosineTimesLengths(sqrt: real -> real, a: Vector, b: Vector)
    requires IsSqrt(sqrt)
    ensures Similarity(sqrt, a, b) * (sqrt(Dot(a, a, a.Keys)) * sqrt(Dot(b, b, b.Keys))) == Dot(a, b, Shared(a, b))
  {
    var dot, aa, bb := Dot(a, b, Shared(a, b)), Dot(a, a, a.Keys), Dot(b, b, b.Keys);
    DotWithinLengths(a, b);
    if dot != 0.0 {
      SqrtPositive(sqrt, aa);
      SqrtPositive(sqrt, bb);
      QuotientTimes(dot, sqrt(aa), sqrt(bb));
    }
  }

  lemma QuotientTimes(d: real, x: real, y: real)
    requires x > 0.0 && y > 0.0
    ensures Quotient(d, x, y) * (x * y) == d
  {
    NegatedQuotient(d, x, y);
    var m := x * y;
    assert d / m * m == d;
  }
}
