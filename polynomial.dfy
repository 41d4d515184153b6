/**
 * The polynomial engine of the Shamir implementation: polynomials over
 * GF(2^8) are coefficient lists, lowest degree first.  `_f` evaluates,
 * `_add_polynomials` and `_multiply_polynomials` add and multiply, and
 * `_full_lagrange` computes all coefficients of the interpolating
 * polynomial.  Each of them is a method that follows the source's loops and
 * is proved equal to a specification function; the lemmas state what those
 * functions mean: evaluation is a homomorphism for sums and products, and
 * the interpolant takes the given values at the given points.
 */
module Polynomial {
  import opened Outcomes
  import opened GF256

  /** Coefficient k, zero past the end of the list. */
  function Coef(p: seq<bv8>, k: nat): bv8 {
    if k < |p| then p[k] else 0
  }

  function Max(a: nat, b: nat): nat {
    if a < b then b else a
  }

  /** The list of n zero coefficients. */
  function Zeros(n: nat): (r: seq<bv8>)
    ensures |r| == n
    ensures forall k :: 0 <= k < n ==> r[k] == 0
  {
    seq(n, k => 0)
  }

  /** The value of p at x, by Horner's rule. */
  function Eval(p: seq<bv8>, x: bv8): bv8
    decreases |p|
  {
    if p == [] then 0 else Add(p[0], Mul(x, Eval(p[1..], x)))
  }

  /** x to the n, multiplying by x on the right as `_f` does. */
  function Pow(x: bv8, n: nat): bv8 {
    if n == 0 then 1 else Mul(Pow(x, n - 1), x)
  }

  /** Coefficient-wise sum, as long as the longer operand. */
  function PolyAdd(p: seq<bv8>, q: seq<bv8>): (r: seq<bv8>)
    ensures |r| == Max(|p|, |q|)
    ensures forall k :: 0 <= k < |r| ==> r[k] == Add(Coef(p, k), Coef(q, k))
  {
    seq(Max(|p|, |q|), k requires 0 <= k < Max(|p|, |q|) => Add(Coef(p, k), Coef(q, k)))
  }

  /** Every coefficient multiplied by c. */
  function Scale(p: seq<bv8>, c: bv8): (r: seq<bv8>)
    ensures |r| == |p|
    ensures forall k :: 0 <= k < |p| ==> r[k] == Mul(p[k], c)
  {
    seq(|p|, k requires 0 <= k < |p| => Mul(p[k], c))
  }

  /**
   * The product a * b, accumulated term by term of b: term j of b
   * contributes a scaled by b[j] and shifted up by j places.
   */
  function PolyMul(a: seq<bv8>, b: seq<bv8>): (r: seq<bv8>)
    ensures |b| == 0 ==> r == []
    ensures |b| > 0 ==> |r| == |a| + |b| - 1
    decreases |b|
  {
    if |b| == 0 then []
    else PolyAdd(PolyMul(a, b[..|b| - 1]), Zeros(|b| - 1) + Scale(a, b[|b| - 1]))
  }

  // ---------------------------------------------------------------------
  // The source's loops

  /**
   * _f: raises for x == 0; otherwise sums c_i * x^i, keeping x^i in an
   * accumulator.  A single coefficient evaluates to itself.
   */
  method F(x: bv8, coefs: seq<bv8>) returns (r: Result<bv8>)
    ensures x == 0 ==> r == Err(ZeroEvaluationPoint)
    ensures x != 0 ==> r == Ok(Eval(coefs, x))
    ensures x != 0 && |coefs| == 1 ==> r == Ok(coefs[0])
  {
    if x == 0 {
      return Err(ZeroEvaluationPoint);
    }
    var accumulator: bv8 := 0;
    var xi: bv8 := 1;
    var i := 0;
    while i < |coefs|
      invariant 0 <= i <= |coefs|
      invariant accumulator == Eval(coefs[..i], x)
      invariant xi == Pow(x, i)
    {
      EvalSnoc(coefs[..i], coefs[i], x);
      assert coefs[..i + 1] == coefs[..i] + [coefs[i]];
      accumulator := Add(accumulator, Mul(coefs[i], xi));
      xi := Mul(xi, x);
      i := i + 1;
    }
    assert coefs[..i] == coefs;
    if |coefs| == 1 {
      EvalSingle(coefs[0], x);
    }
    return Ok(accumulator);
  }

  /** _add_polynomials: pad the shorter operand with zeros, then XOR. */
  method AddPolynomials(a0: seq<bv8>, b0: seq<bv8>) returns (result: seq<bv8>)
    ensures result == PolyAdd(a0, b0)
  {
    var a, b := a0, b0;
    if |a| < |b| {
      a := a + Zeros(|b| - |a|);
    }
    if |a| > |b| {
      b := b + Zeros(|a| - |b|);
    }
    result := [];
    var pos := 0;
    while pos < |a|
      invariant |a| == |b| == Max(|a0|, |b0|)
      invariant forall k :: 0 <= k < |a| ==> a[k] == Coef(a0, k) && b[k] == Coef(b0, k)
      invariant 0 <= pos <= |a|
      invariant result == PolyAdd(a0, b0)[..pos]
    {
      result := result + [Add(a[pos], b[pos])];
      pos := pos + 1;
    }
  }

  /**
   * _multiply_polynomials: for each term of b, the scaled copy of a behind
   * a growing run of zeros is added into the result.
   */
  method MultiplyPolynomials(a: seq<bv8>, b: seq<bv8>) returns (resultterms: seq<bv8>)
    ensures resultterms == PolyMul(a, b)
  {
    resultterms := [];
    var termpadding: seq<bv8> := [];
    var j := 0;
    while j < |b|
      invariant 0 <= j <= |b|
      invariant termpadding == Zeros(j)
      invariant resultterms == PolyMul(a, b[..j])
    {
      var thisvalue := termpadding;
      var i := 0;
      while i < |a|
        invariant 0 <= i <= |a|
        invariant thisvalue == termpadding + Scale(a, b[j])[..i]
      {
        ScaleSnoc(a, b[j], i, termpadding);
        thisvalue := thisvalue + [Mul(a[i], b[j])];
        i := i + 1;
      }
      assert Scale(a, b[j])[..i] == Scale(a, b[j]);
      PolyMulPrefix(a, b, j);
      resultterms := AddPolynomials(resultterms, thisvalue);
      assert Zeros(j) + [0] == Zeros(j + 1);
      termpadding := termpadding + [0];
      j := j + 1;
    }
    assert b[..j] == b;
  }

  lemma ScaleSnoc(a: seq<bv8>, c: bv8, i: nat, pad: seq<bv8>)
    requires i < |a|
    ensures pad + Scale(a, c)[..i + 1] == pad + Scale(a, c)[..i] + [Mul(a[i], c)]
  {
    assert Scale(a, c)[..i + 1] == Scale(a, c)[..i] + [Scale(a, c)[i]];
  }

  /** One more term of b adds its scaled, shifted copy of a. */
  lemma PolyMulPrefix(a: seq<bv8>, b: seq<bv8>, j: nat)
    requires j < |b|
    ensures PolyMul(a, b[..j + 1]) == PolyAdd(PolyMul(a, b[..j]), Zeros(j) + Scale(a, b[j]))
  {
    assert b[..j + 1][..j] == b[..j];
  }

  /** The six products the worked example below needs, read off the tables. */
  lemma ExampleProducts()
    ensures Mul(1, 4) == 4 && Mul(3, 4) == 12 && Mul(4, 4) == 16
    ensures Mul(1, 5) == 5 && Mul(3, 5) == 15 && Mul(4, 5) == 20
  {
    hide Log, LogFrom, Exp, Times3, Xtime;
    LogTableMatches(1);
    LogTableMatches(3);
    LogTableMatches(4);
    LogTableMatches(5);
    assert Log(1) == 0 && Log(3) == 1 && Log(4) == 50 && Log(5) == 2;
    ExpTableMatches(2);
    ExpTableMatches(3);
    ExpTableMatches(50);
    ExpTableMatches(51);
    ExpTableMatches(52);
    ExpTableMatches(100);
    assert Exp(2) == 5 && Exp(3) == 15 && Exp(50) == 4;
    assert Exp(51) == 12 && Exp(52) == 20 && Exp(100) == 16;
  }

  /**
   * The worked example of _multiply_polynomials: (1 + 3x + 4x^2) * (4 + 5x)
   * is 4 + 9x + 31x^2 + 20x^3 over GF(2^8).
   */
  lemma MultiplyExample()
    ensures PolyMul([1, 3, 4], [4, 5]) == [4, 9, 31, 20]
  {
    ExampleProducts();
    hide Mul;
    assert [4, 5][..1] == [4];
    assert [4][..0] == [];
    assert PolyMul([1, 3, 4], [4]) == [4, 12, 16];
    assert Zeros(1) + Scale([1, 3, 4], 5) == [0, 5, 15, 20];
  }

  // ---------------------------------------------------------------------
  // Evaluation

  lemma EvalSingle(c: bv8, x: bv8)
    ensures Eval([c], x) == c
  {
    assert [c][1..] == [];
  }

  lemma {:induction false} EvalSnoc(p: seq<bv8>, c: bv8, x: bv8)
    ensures Eval(p + [c], x) == Add(Eval(p, x), Mul(c, Pow(x, |p|)))
    decreases |p|
  {
    if p == [] {
      EvalSingle(c, x);
      assert Pow(x, 0) == 1;
      MulOne(c);
    } else {
      assert (p + [c])[1..] == p[1..] + [c];
      EvalSnoc(p[1..], c, x);
      var e, w := Eval(p[1..], x), Pow(x, |p| - 1);
      MulDistrib(x, e, Mul(c, w));
      MulComm(x, Mul(c, w));
      MulAssoc(c, w, x);
      AddAssoc(p[0], Mul(x, e), Mul(c, Mul(w, x)));
    }
  }

  /** Evaluation of a sum is the sum of the evaluations. */
  lemma {:induction false} EvalAdd(p: seq<bv8>, q: seq<bv8>, x: bv8)
    ensures Eval(PolyAdd(p, q), x) == Add(Eval(p, x), Eval(q, x))
    decreases |p| + |q|
  {
    var r := PolyAdd(p, q);
    if p == [] {
      assert r == q;
    } else if q == [] {
      assert r == p;
    } else {
      assert r[1..] == PolyAdd(p[1..], q[1..]);
      EvalAdd(p[1..], q[1..], x);
      var ep, eq := Eval(p[1..], x), Eval(q[1..], x);
      MulDistrib(x, ep, eq);
      AddRegroup(p[0], q[0], Mul(x, ep), Mul(x, eq));
    }
  }

  /** Trailing zero coefficients do not change the value. */
  lemma {:induction false} EvalPadded(p: seq<bv8>, k: nat, x: bv8)
    ensures Eval(p + Zeros(k), x) == Eval(p, x)
    decreases |p| + k
  {
    if p == [] {
      if k > 0 {
        assert (p + Zeros(k))[1..] == [] + Zeros(k - 1);
        EvalPadded([], k - 1, x);
        assert Eval(p + Zeros(k), x) == Add(0, Mul(x, 0));
      }
    } else {
      assert (p + Zeros(k))[1..] == p[1..] + Zeros(k);
      EvalPadded(p[1..], k, x);
    }
  }

  /** Leading zero coefficients multiply the value by a power of x. */
  lemma {:induction false} EvalShifted(k: nat, s: seq<bv8>, x: bv8)
    ensures Eval(Zeros(k) + s, x) == Mul(Pow(x, k), Eval(s, x))
  {
    if k == 0 {
      assert Zeros(k) + s == s;
      MulOne(Eval(s, x));
    } else {
      assert (Zeros(k) + s)[1..] == Zeros(k - 1) + s;
      EvalShifted(k - 1, s, x);
      var w, e := Pow(x, k - 1), Eval(s, x);
      MulAssoc(w, x, e);
      MulAssoc(x, w, e);
      MulComm(x, w);
    }
  }

  /** Scaling the coefficients scales the value. */
  lemma {:induction false} EvalScale(p: seq<bv8>, c: bv8, x: bv8)
    ensures Eval(Scale(p, c), x) == Mul(Eval(p, x), c)
    decreases |p|
  {
    if p != [] {
      assert Scale(p, c)[1..] == Scale(p[1..], c);
      EvalScale(p[1..], c, x);
      var e := Eval(p[1..], x);
      MulAssoc(x, e, c);
      MulComm(Add(p[0], Mul(x, e)), c);
      MulDistrib(c, p[0], Mul(x, e));
      MulComm(c, p[0]);
      MulComm(c, Mul(x, e));
    }
  }

  /** Evaluation of a product is the product of the evaluations. */
  lemma {:induction false} EvalMul(a: seq<bv8>, b: seq<bv8>, x: bv8)
    ensures Eval(PolyMul(a, b), x) == Mul(Eval(a, x), Eval(b, x))
    decreases |b|
  {
    if |b| == 0 {
      MulComm(Eval(a, x), 0);
    } else {
      var m := |b| - 1;
      var c := b[m];
      assert b == b[..m] + [c];
      EvalMul(a, b[..m], x);
      EvalAdd(PolyMul(a, b[..m]), Zeros(m) + Scale(a, c), x);
      EvalShifted(m, Scale(a, c), x);
      EvalScale(a, c, x);
      EvalSnoc(b[..m], c, x);
      var e, f, w := Eval(a, x), Eval(b[..m], x), Pow(x, m);
      MulDistrib(e, f, Mul(c, w));
      MulAssoc(w, e, c);
      MulComm(w, e);
      MulAssoc(e, w, c);
      MulComm(w, c);
    }
  }

  lemma EvalNil(x: bv8)
    ensures Eval([], x) == 0
  {
  }

  lemma EvalMulZeroLeft(a: seq<bv8>, b: seq<bv8>, x: bv8)
    requires Eval(a, x) == 0
    ensures Eval(PolyMul(a, b), x) == 0
  {
    EvalMul(a, b, x);
  }

  lemma EvalMulZeroRight(a: seq<bv8>, b: seq<bv8>, x: bv8)
    requires Eval(b, x) == 0
    ensures Eval(PolyMul(a, b), x) == 0
  {
    EvalMul(a, b, x);
  }

  lemma EvalMulOne(a: seq<bv8>, b: seq<bv8>, x: bv8)
    requires Eval(a, x) == 1 && Eval(b, x) == 1
    ensures Eval(PolyMul(a, b), x) == 1
  {
    EvalMul(a, b, x);
    MulOne(1);
  }
}
