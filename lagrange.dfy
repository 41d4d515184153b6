/**
 * Lagrange interpolation over GF(2^8), as `_full_lagrange` does it: for
 * each point i the basis polynomial l_i is the product of the linear
 * factors (x - x_j) / (x_i - x_j) over the other points j, and the result
 * is the sum of the f(x_i) * l_i.  A repeated x makes a denominator zero,
 * and the division raises.
 *
 * The specification is `Interpolate`; `FullLagrange` follows the source's
 * loops and is proved equal to it.  The lemmas show that the interpolant
 * has one coefficient per point, takes the given value at every point, and
 * is the only polynomial of that length that does, so that it gives back
 * the coefficients of any polynomial of no greater length sampled at the
 * points.
 */
module Lagrange {
  import opened Outcomes
  import opened GF256
  import opened Polynomial

  /** No x value occurs twice. */
  predicate Distinct(xs: seq<bv8>) {
    forall a, b :: 0 <= a < b < |xs| ==> xs[a] != xs[b]
  }

  /** Point i differs from every other one of the first n points. */
  predicate DiffersBelow(xs: seq<bv8>, i: nat, n: nat)
    requires i < |xs| && n <= |xs|
  {
    forall j :: 0 <= j < n && j != i ==> xs[j] != xs[i]
  }

  /** Fewer points leave fewer points to differ from. */
  lemma DiffersBelowPrefix(xs: seq<bv8>, i: nat, n: nat, m: nat)
    requires i < |xs| && n <= |xs| && DiffersBelow(xs, i, n) && m <= n
    ensures DiffersBelow(xs, i, m)
  {
  }

  /** Reading one point off DiffersBelow. */
  lemma DiffersAt(xs: seq<bv8>, i: nat, n: nat, j: nat)
    requires i < |xs| && n <= |xs| && DiffersBelow(xs, i, n) && j < n && j != i
    ensures xs[j] != xs[i]
  {
  }

  /** Each of the first m points differs from all other points. */
  predicate RowsDistinct(xs: seq<bv8>, m: nat)
    requires m <= |xs|
  {
    forall i :: 0 <= i < m ==> DiffersBelow(xs, i, |xs|)
  }

  /** Checking every row is checking every pair. */
  lemma RowsDistinctIff(xs: seq<bv8>)
    ensures RowsDistinct(xs, |xs|) <==> Distinct(xs)
  {
    if Distinct(xs) {
      forall i | 0 <= i < |xs|
        ensures DiffersBelow(xs, i, |xs|)
      {
        forall j | 0 <= j < |xs| && j != i
          ensures xs[j] != xs[i]
        {
          if j < i {
            assert xs[j] != xs[i];
          } else {
            assert xs[i] != xs[j];
          }
        }
      }
    }
    if RowsDistinct(xs, |xs|) {
      forall a, b | 0 <= a < b < |xs|
        ensures xs[a] != xs[b]
      {
        assert DiffersBelow(xs, b, |xs|);
      }
    }
  }

  /**
   * The factor (x - xj) / (xi - xj) as the coefficient list
   * [xj / d, 1 / d] with d = xi - xj (minus is plus in this field).
   */
  function Factor(xi: bv8, xj: bv8): (r: seq<bv8>)
    requires xi != xj
    ensures |r| == 2
  {
    [Quotient(xj, Sub(xi, xj)), Quotient(1, Sub(xi, xj))]
  }

  /** The difference of two points is zero exactly when they coincide. */
  lemma SubZero(xi: bv8, xj: bv8)
    ensures Sub(xi, xj) == 0 <==> xi == xj
  {
  }

  /** The two divisions of the inner loop compute the factor's coefficients. */
  lemma FactorByDivision(xi: bv8, xj: bv8)
    requires xi != xj
    ensures Div(xj, Sub(xi, xj)) == Ok(Factor(xi, xj)[0])
    ensures Div(1, Sub(xi, xj)) == Ok(Factor(xi, xj)[1])
  {
    SubZero(xi, xj);
  }

  /**
   * l_i over the first n points: the product of the factors for every
   * j < n other than i, multiplied in the order of j.
   */
  function Basis(xs: seq<bv8>, i: nat, n: nat): (r: seq<bv8>)
    requires i < |xs| && n <= |xs| && DiffersBelow(xs, i, n)
    ensures |r| == (if i < n then n else n + 1)
  {
    if n == 0 then [1]
    else if n - 1 == i then Basis(xs, i, n - 1)
    else PolyMul(Basis(xs, i, n - 1), Factor(xs[i], xs[n - 1]))
  }

  /** The sum of fxs[i] * l_i over the first m points. */
  function Interp(xs: seq<bv8>, fxs: seq<bv8>, m: nat): (r: seq<bv8>)
    requires |fxs| == |xs| && m <= |xs| && RowsDistinct(xs, m)
    ensures |r| == (if m == 0 then 0 else |xs|)
  {
    if m == 0 then []
    else
      assert DiffersBelow(xs, m - 1, |xs|);
      PolyAdd(Interp(xs, fxs, m - 1), PolyMul(Basis(xs, m - 1, |xs|), [fxs[m - 1]]))
  }

  /**
   * The coefficients _full_lagrange returns: a ZeroDivisionError when
   * two points coincide, otherwise the interpolant.
   */
  function Interpolate(xs: seq<bv8>, fxs: seq<bv8>): (r: Result<seq<bv8>>)
    requires |xs| == |fxs|
    ensures r.Err? <==> !Distinct(xs)
    ensures r.Err? ==> r.error == ZeroDivision
    ensures r.Ok? ==> |r.value| == |xs|
  {
    RowsDistinctIff(xs);
    if RowsDistinct(xs, |xs|) then Ok(Interp(xs, fxs, |xs|)) else Err(ZeroDivision)
  }

  // ---------------------------------------------------------------------
  // The source's loops

  /**
   * _full_lagrange: the outer loop adds fxs[i] * l_i into the result; the
   * inner loop, `BasisPolynomial`, builds l_i.
   */
  method FullLagrange(xs: seq<bv8>, fxs: seq<bv8>) returns (r: Result<seq<bv8>>)
    requires |xs| == |fxs|
    ensures r == Interpolate(xs, fxs)
  {
    hide Basis, Interp, PolyMul, PolyAdd, Eval;
    var returnedcoefficients: seq<bv8> := [];
    InterpNone(xs, fxs);
    for i := 0 to |fxs|
      invariant RowsDistinct(xs, i)
      invariant returnedcoefficients == Interp(xs, fxs, i)
    {
      var thispolynomial := BasisPolynomial(xs, i);
      if thispolynomial.Err? {
        RowsDistinctIff(xs);
        return Err(thispolynomial.error);
      }
      var scaled := MultiplyPolynomials(thispolynomial.value, [fxs[i]]);
      returnedcoefficients := AddPolynomials(returnedcoefficients, scaled);
      InterpSucc(xs, fxs, i + 1);
    }
    RowsDistinctIff(xs);
    return Ok(returnedcoefficients);
  }

  /**
   * The inner loop of _full_lagrange: l_i factor by factor, dividing by
   * xs[i] - xs[j]; that division fails exactly when xs[j] repeats xs[i].
   */
  method BasisPolynomial(xs: seq<bv8>, i: nat) returns (r: Result<seq<bv8>>)
    requires i < |xs|
    ensures r.Ok? <==> DiffersBelow(xs, i, |xs|)
    ensures r.Ok? ==> r.value == Basis(xs, i, |xs|)
    ensures r.Err? ==> r.error == ZeroDivision
  {
    hide Basis, PolyMul, Eval, Factor, Quotient, Div, Mul, Sub;
    var thispolynomial: seq<bv8> := [1];
    BasisNone(xs, i);
    for j := 0 to |xs|
      invariant DiffersBelow(xs, i, j)
      invariant thispolynomial == Basis(xs, i, j)
    {
      if i != j {
        var denominator := Sub(xs[i], xs[j]);
        SubZero(xs[i], xs[j]);
        var low := Div(xs[j], denominator);
        if low.Err? {
          assert xs[j] == xs[i];
          return Err(low.error);
        }
        var high := Div(1, denominator);
        if high.Err? {
          assert xs[j] == xs[i];
          return Err(high.error);
        }
        FactorByDivision(xs[i], xs[j]);
        assert [low.value, high.value] == Factor(xs[i], xs[j]);
        BasisSucc(xs, i, j + 1);
        thispolynomial := MultiplyPolynomials(thispolynomial, [low.value, high.value]);
      } else {
        BasisSkip(xs, i, j + 1);
      }
    }
    return Ok(thispolynomial);
  }

  // ---------------------------------------------------------------------
  // The interpolant takes the given values

  lemma FactorEval(xi: bv8, xj: bv8, y: bv8)
    requires xi != xj
    ensures Eval(Factor(xi, xj), y) == Quotient(Add(xj, y), Sub(xi, xj))
  {
    var d := Sub(xi, xj);
    var inv := Quotient(1, d);
    var q0 := Quotient(xj, d);
    EvalSingle(inv, y);
    assert Factor(xi, xj)[1..] == [inv];
    assert Eval(Factor(xi, xj), y) == Add(q0, Mul(y, inv));
    QuotientIsMulInverse(xj, d);
    QuotientIsMulInverse(Add(xj, y), d);
    MulDistrib(inv, xj, y);
    MulComm(inv, xj);
    MulComm(inv, y);
    MulComm(inv, Add(xj, y));
  }

  /** A factor is 1 at its own point. */
  lemma FactorAtOwn(xi: bv8, xj: bv8)
    requires xi != xj
    ensures Eval(Factor(xi, xj), xi) == 1
  {
    var d := Sub(xi, xj);
    FactorEval(xi, xj, xi);
    assert Add(xj, xi) == d;
    MulOne(d);
    MulCancel(Quotient(d, d), 1, d);
  }

  /** A factor is 0 at the other point. */
  lemma FactorAtOther(xi: bv8, xj: bv8)
    requires xi != xj
    ensures Eval(Factor(xi, xj), xj) == 0
  {
    FactorEval(xi, xj, xj);
    assert Add(xj, xj) == 0;
  }

  /** Over no points l_i is the constant 1. */
  lemma BasisNone(xs: seq<bv8>, i: nat)
    requires i < |xs|
    ensures Basis(xs, i, 0) == [1]
  {
  }

  /** Point i itself contributes no factor to l_i. */
  lemma BasisSkip(xs: seq<bv8>, i: nat, n: nat)
    requires i < |xs| && 0 < n <= |xs| && DiffersBelow(xs, i, n) && n - 1 == i
    ensures Basis(xs, i, n) == Basis(xs, i, n - 1)
  {
  }

  /** One more point other than i multiplies l_i by its factor. */
  lemma BasisSucc(xs: seq<bv8>, i: nat, n: nat)
    requires i < |xs| && 0 < n <= |xs| && DiffersBelow(xs, i, n) && n - 1 != i
    ensures Basis(xs, i, n) == PolyMul(Basis(xs, i, n - 1), Factor(xs[i], xs[n - 1]))
  {
  }

  /** l_i is 1 at x_i. */
  lemma {:induction false} BasisAtOwn(xs: seq<bv8>, i: nat, n: nat)
    requires i < |xs| && n <= |xs| && DiffersBelow(xs, i, n)
    ensures Eval(Basis(xs, i, n), xs[i]) == 1
  {
    hide *;
    if n == 0 {
      BasisNone(xs, i);
      EvalSingle(1, xs[i]);
    } else if n - 1 == i {
      DiffersBelowPrefix(xs, i, n, n - 1);
      BasisSkip(xs, i, n);
      BasisAtOwn(xs, i, n - 1);
    } else {
      DiffersBelowPrefix(xs, i, n, n - 1);
      BasisAtOwn(xs, i, n - 1);
      DiffersAt(xs, i, n, n - 1);
      BasisSucc(xs, i, n);
      FactorAtOwn(xs[i], xs[n - 1]);
      EvalMulOne(Basis(xs, i, n - 1), Factor(xs[i], xs[n - 1]), xs[i]);
    }
  }

  /** l_i is 0 at every other point it was built over. */
  lemma {:induction false} BasisAtOther(xs: seq<bv8>, i: nat, n: nat, k: nat)
    requires i < |xs| && n <= |xs| && DiffersBelow(xs, i, n)
    requires k < n && k != i
    ensures Eval(Basis(xs, i, n), xs[k]) == 0
  {
    hide *;
    DiffersBelowPrefix(xs, i, n, n - 1);
    if n - 1 == i {
      BasisSkip(xs, i, n);
      BasisAtOther(xs, i, n - 1, k);
    } else {
      DiffersAt(xs, i, n, n - 1);
      BasisSucc(xs, i, n);
      var b := Basis(xs, i, n - 1);
      var f := Factor(xs[i], xs[n - 1]);
      if k == n - 1 {
        FactorAtOther(xs[i], xs[n - 1]);
        EvalMulZeroRight(b, f, xs[n - 1]);
      } else {
        BasisAtOther(xs, i, n - 1, k);
        EvalMulZeroLeft(b, f, xs[k]);
      }
    }
  }

  /** The value of fxs[i] * l_i at x_k: fxs[i] at k == i, else 0. */
  lemma ScaledBasisAt(xs: seq<bv8>, fxs: seq<bv8>, i: nat, k: nat)
    requires |fxs| == |xs| && i < |xs| && k < |xs| && DiffersBelow(xs, i, |xs|)
    ensures Eval(PolyMul(Basis(xs, i, |xs|), [fxs[i]]), xs[k]) == (if k == i then fxs[i] else 0)
  {
    var b := Basis(xs, i, |xs|);
    EvalMul(b, [fxs[i]], xs[k]);
    EvalSingle(fxs[i], xs[k]);
    if k == i {
      BasisAtOwn(xs, i, |xs|);
      MulOne(fxs[i]);
    } else {
      BasisAtOther(xs, i, |xs|, k);
    }
  }

  /** Over no points the partial sum is empty. */
  lemma InterpNone(xs: seq<bv8>, fxs: seq<bv8>)
    requires |fxs| == |xs|
    ensures Interp(xs, fxs, 0) == []
  {
  }

  /** One more point adds its scaled basis polynomial to the partial sum. */
  lemma InterpSucc(xs: seq<bv8>, fxs: seq<bv8>, m: nat)
    requires |fxs| == |xs| && 0 < m <= |xs| && RowsDistinct(xs, m)
    ensures RowsDistinct(xs, m - 1) && DiffersBelow(xs, m - 1, |xs|)
    ensures Interp(xs, fxs, m) == PolyAdd(Interp(xs, fxs, m - 1), PolyMul(Basis(xs, m - 1, |xs|), [fxs[m - 1]]))
  {
  }

  /** The partial sum over the first m points takes fxs[k] at x_k for k < m, else 0. */
  lemma {:induction false} InterpAt(xs: seq<bv8>, fxs: seq<bv8>, m: nat, k: nat)
    requires |fxs| == |xs| && m <= |xs| && RowsDistinct(xs, m) && k < |xs|
    ensures Eval(Interp(xs, fxs, m), xs[k]) == (if k < m then fxs[k] else 0)
  {
    hide *;
    if m == 0 {
      InterpNone(xs, fxs);
      EvalNil(xs[k]);
    } else {
      InterpSucc(xs, fxs, m);
      InterpAt(xs, fxs, m - 1, k);
      EvalAdd(Interp(xs, fxs, m - 1), PolyMul(Basis(xs, m - 1, |xs|), [fxs[m - 1]]), xs[k]);
      ScaledBasisAt(xs, fxs, m - 1, k);
      AddZero(fxs[k]);
      AddZero(0);
    }
  }

  /**
   * For distinct points the interpolant exists, has one coefficient per
   * point and takes fxs[k] at xs[k].
   */
  lemma InterpolateFits(xs: seq<bv8>, fxs: seq<bv8>, k: nat)
    requires |xs| == |fxs| && Distinct(xs) && k < |xs|
    ensures Interpolate(xs, fxs).Ok?
    ensures Eval(Interpolate(xs, fxs).value, xs[k]) == fxs[k]
  {
    RowsDistinctIff(xs);
    InterpAt(xs, fxs, |xs|, k);
  }

  // ---------------------------------------------------------------------
  // Uniqueness: a short polynomial with too many roots is zero

  /** Synthetic division by (x - r): the quotient, highest terms last. */
  function DivideOut(p: seq<bv8>, r: bv8): (q: seq<bv8>)
    ensures |q| == if p == [] then 0 else |p| - 1
  {
    if |p| <= 1 then [] else [Eval(p[1..], r)] + DivideOut(p[1..], r)
  }

  /** p(y) = p(r) + (y - r) * q(y) for the quotient q of synthetic division. */
  lemma {:induction false} DivideOutEval(p: seq<bv8>, r: bv8, y: bv8)
    ensures Eval(p, y) == Add(Eval(p, r), Mul(Add(y, r), Eval(DivideOut(p, r), y)))
  {
    if |p| == 0 {
      MulComm(Add(y, r), 0);
    } else if |p| == 1 {
      assert p[1..] == [];
      MulComm(Add(y, r), 0);
      MulComm(y, 0);
      MulComm(r, 0);
    } else {
      var t := p[1..];
      var q := DivideOut(t, r);
      DivideOutEval(t, r, y);
      var et, er, eq := Eval(t, y), Eval(t, r), Eval(q, y);
      assert DivideOut(p, r)[1..] == q;
      assert Eval(DivideOut(p, r), y) == Add(er, Mul(y, eq));
      DivideOutStep(p[0], y, r, et, er, eq);
    }
  }

  /**
   * The field identity behind one step of synthetic division: if
   * et = er + (y + r) * eq, then p0 + y * et equals
   * (p0 + r * er) + (y + r) * (er + y * eq).
   */
  lemma DivideOutStep(p0: bv8, y: bv8, r: bv8, et: bv8, er: bv8, eq: bv8)
    requires et == Add(er, Mul(Add(y, r), eq))
    ensures Add(p0, Mul(y, et)) == Add(Add(p0, Mul(r, er)), Mul(Add(y, r), Add(er, Mul(y, eq))))
  {
    var s := Add(y, r);
    // left: p0 + y*er + y*s*eq
    MulDistrib(y, er, Mul(s, eq));
    // right: (y + r)*er + (y + r)*y*eq = y*er + r*er + s*y*eq
    MulDistrib(s, er, Mul(y, eq));
    MulComm(s, er);
    MulDistrib(er, y, r);
    MulComm(er, y);
    MulComm(er, r);
    MulAssoc(y, s, eq);
    MulAssoc(s, y, eq);
    MulComm(y, s);
    DivideOutRegroup(p0, Mul(y, er), Mul(r, er), Mul(y, Mul(s, eq)));
  }

  lemma DivideOutRegroup(p0: bv8, a: bv8, b: bv8, c: bv8)
    ensures Add(p0, Add(a, c)) == Add(Add(p0, b), Add(Add(a, b), c))
  {
    assert p0 ^ (a ^ c) == (p0 ^ b) ^ ((a ^ b) ^ c);
  }

  /** A quotient of zeros and a root at r leave only zero coefficients. */
  lemma {:induction false} DivideOutZero(p: seq<bv8>, r: bv8)
    requires Eval(p, r) == 0
    requires forall c :: 0 <= c < |DivideOut(p, r)| ==> DivideOut(p, r)[c] == 0
    ensures forall c :: 0 <= c < |p| ==> p[c] == 0
  {
    if |p| == 1 {
      assert p[1..] == [];
      MulComm(r, 0);
    } else if |p| > 1 {
      var t := p[1..];
      assert Eval(t, r) == DivideOut(p, r)[0];
      assert DivideOut(p, r)[1..] == DivideOut(t, r);
      forall c | 0 <= c < |DivideOut(t, r)|
        ensures DivideOut(t, r)[c] == 0
      {
        assert DivideOut(t, r)[c] == DivideOut(p, r)[c + 1];
      }
      DivideOutZero(t, r);
      MulComm(r, 0);
      assert p[0] == 0;
      forall c | 0 <= c < |p|
        ensures p[c] == 0
      {
        if c > 0 {
          assert p[c] == t[c - 1];
        }
      }
    }
  }

  /** A polynomial with no more coefficients than it has distinct roots is zero. */
  lemma {:induction false} ZeroPolynomial(p: seq<bv8>, xs: seq<bv8>)
    requires |p| <= |xs| && Distinct(xs)
    requires forall k :: 0 <= k < |xs| ==> Eval(p, xs[k]) == 0
    ensures forall c :: 0 <= c < |p| ==> p[c] == 0
    decreases |xs|
  {
    if |p| > 0 {
      var n := |xs| - 1;
      var r := xs[n];
      var q := DivideOut(p, r);
      var ys := xs[..n];
      forall k | 0 <= k < |ys|
        ensures Eval(q, ys[k]) == 0
      {
        DivideOutEval(p, r, ys[k]);
        assert Eval(p, r) == 0;
        assert Eval(p, ys[k]) == 0;
        assert Add(ys[k], r) != 0;
      }
      ZeroPolynomial(q, ys);
      assert Eval(p, r) == 0;
      DivideOutZero(p, r);
    }
  }

  /**
   * Two polynomials no longer than the number of distinct points that agree
   * at every point have the same coefficients.
   */
  lemma AgreeingPolynomials(p: seq<bv8>, q: seq<bv8>, xs: seq<bv8>)
    requires |p| <= |xs| && |q| <= |xs| && Distinct(xs)
    requires forall k :: 0 <= k < |xs| ==> Eval(p, xs[k]) == Eval(q, xs[k])
    ensures forall c :: 0 <= c < |xs| ==> Coef(p, c) == Coef(q, c)
  {
    var d := PolyAdd(p, q);
    forall k | 0 <= k < |xs|
      ensures Eval(d, xs[k]) == 0
    {
      EvalAdd(p, q, xs[k]);
    }
    ZeroPolynomial(d, xs);
    forall c | 0 <= c < |xs|
      ensures Coef(p, c) == Coef(q, c)
    {
      if c < |d| {
        assert d[c] == Add(Coef(p, c), Coef(q, c));
      }
    }
  }

  /** A list whose coefficients agree with coefs everywhere is coefs padded with zeros. */
  lemma PaddedByCoef(p: seq<bv8>, coefs: seq<bv8>)
    requires |coefs| <= |p|
    requires forall c :: 0 <= c < |p| ==> Coef(p, c) == Coef(coefs, c)
    ensures p == coefs + Zeros(|p| - |coefs|)
  {
    var padded := coefs + Zeros(|p| - |coefs|);
    forall c | 0 <= c < |p|
      ensures p[c] == padded[c]
    {
      assert Coef(p, c) == Coef(coefs, c);
    }
  }

  /**
   * Sampling a polynomial of at most n coefficients at n distinct points and
   * interpolating gives back its coefficients, padded with zeros to length n.
   */
  lemma InterpolateRecovers(xs: seq<bv8>, coefs: seq<bv8>, fxs: seq<bv8>)
    requires |xs| == |fxs| && Distinct(xs) && |coefs| <= |xs|
    requires forall k :: 0 <= k < |xs| ==> fxs[k] == Eval(coefs, xs[k])
    ensures Interpolate(xs, fxs) == Ok(coefs + Zeros(|xs| - |coefs|))
  {
    hide *;
    var p := Interpolate(xs, fxs).value;
    forall k | 0 <= k < |xs|
      ensures Eval(p, xs[k]) == Eval(coefs, xs[k])
    {
      InterpolateFits(xs, fxs, k);
    }
    AgreeingPolynomials(p, coefs, xs);
    PaddedByCoef(p, coefs);
  }
}
