/**
 * The ShamirSecret class: threshold secret sharing applied byte by byte.
 * Every byte of the secret is the constant term of its own polynomial of
 * degree threshold - 1 over GF(2^8); the share at x holds x and the value
 * of every one of those polynomials at x.
 *
 * shamirsecret.py and polypasswordhasher/fastshamirsecret.py define the same
 * class; the second hands evaluation and interpolation to a C extension
 * through wrappers that pack x and the values into byte strings, so that
 * a value outside 0..255 is refused there.  One class models both, with
 * the byte-packing wrappers (`FastF`, `LagrangeInts`) taken from the second.
 *
 * The class follows the source's methods; each is proved against a
 * specification function (`ShareAt`, `ValidShare`, `Recovery`), and the
 * lemmas at the end prove what the scheme promises: interpolating enough
 * genuine shares gives back the secret, and the recovered object issues
 * and accepts exactly the shares of the original one.
 */
module Shamir {
  import opened Outcomes
  import opened GF256
  import opened Polynomial
  import opened Lagrange
  import opened Crypto

  /** A share: the point x and, for every secret byte, its polynomial at x. */
  datatype Share = Share(x: int, bytes: seq<bv8>)

  /** What a successful recovery stores: one coefficient list per byte, and the secret. */
  datatype Recovered = Recovered(coefficients: seq<seq<bv8>>, secret: seq<bv8>)

  // ---------------------------------------------------------------------
  // Issuing and checking shares

  /**
   * The byte whose value is a: the packing chr() and bytearray() do.
   * Counting up keeps the proof that the value survives cheap.
   */
  function ToByte(a: int): (b: bv8)
    requires 0 <= a <= 255
    ensures b as int == a
  {
    if a == 0 then 0 else ByteSucc(ToByte(a - 1)); ToByte(a - 1) + 1
  }

  /** Adding one to a byte below 255 adds one to its value. */
  lemma ByteSucc(b: bv8)
    requires b as int < 255
    ensures (b + 1) as int == b as int + 1
  {
  }

  /** Coefficient list k evaluated at x, for every k. */
  function ShareBytes(coefs: seq<seq<bv8>>, x: bv8): (r: seq<bv8>)
    ensures |r| == |coefs|
  {
    seq(|coefs|, k requires 0 <= k < |coefs| => Eval(coefs[k], x))
  }

  /**
   * compute_share: x must lie in 1..255 and the coefficients must be
   * known; the share holds x and one value per coefficient list.
   */
  function ShareAt(coefficients: Option<seq<seq<bv8>>>, x: int): (r: Result<Share>)
    ensures r.Ok? <==> 1 <= x <= 255 && coefficients.Some?
    ensures !(1 <= x <= 255) ==> r == Err(InvalidShareIndex)
    ensures 1 <= x <= 255 && coefficients.None? ==> r == Err(NotInitialized)
    ensures r.Ok? ==> r.value.x == x && |r.value.bytes| == |coefficients.value|
  {
    if x <= 0 || x >= 256 then Err(InvalidShareIndex)
    else if coefficients.None? then Err(NotInitialized)
    else Ok(Share(x, ShareBytes(coefficients.value, ToByte(x))))
  }

  /**
   * is_valid_share: the coefficients must be known and as many as the
   * share has bytes; then the share is valid exactly when it is the one
   * compute_share gives for its x.
   */
  function ValidShare(coefficients: Option<seq<seq<bv8>>>, share: Share): (r: Result<bool>)
    ensures coefficients.None? ==> r == Err(NotInitialized)
    ensures coefficients.Some? && |coefficients.value| != |share.bytes| ==> r == Err(ShareLengthMismatch)
    ensures r == Ok(true) <==> ShareAt(coefficients, share.x) == Ok(share)
    ensures coefficients.Some? && |coefficients.value| == |share.bytes| && !(1 <= share.x <= 255) ==>
              r == Err(InvalidShareIndex)
  {
    if coefficients.None? then Err(NotInitialized)
    else if |coefficients.value| != |share.bytes| then Err(ShareLengthMismatch)
    else
      var correct := ShareAt(coefficients, share.x);
      if correct.Err? then Err(correct.error) else Ok(correct.value == share)
  }

  /**
   * The wrapper f of the fast variant: x is packed with chr(), which
   * refuses values outside 0..255; then the polynomial is evaluated as
   * _f does.
   */
  function FastF(x: int, coefs: seq<bv8>): (r: Result<bv8>)
    ensures !(0 <= x <= 255) ==> r == Err(ByteRange)
    ensures x == 0 ==> r == Err(ZeroEvaluationPoint)
    ensures 1 <= x <= 255 ==> r == Ok(Eval(coefs, ToByte(x)))
  {
    if x < 0 || x > 255 then Err(ByteRange)
    else if x == 0 then Err(ZeroEvaluationPoint)
    else Ok(Eval(coefs, ToByte(x)))
  }

  // ---------------------------------------------------------------------
  // Recovery, step by step

  /** Python's `share not in newshares` loop: first occurrences, in order. */
  function Dedupe(shares: seq<Share>): (r: seq<Share>)
    ensures |r| <= |shares|
    ensures forall s :: s in r <==> s in shares
    ensures forall a, b :: 0 <= a < b < |r| ==> r[a] != r[b]
  {
    if shares == [] then []
    else
      var d := Dedupe(shares[..|shares| - 1]);
      var last := shares[|shares| - 1];
      assert forall s :: s in shares <==> s in shares[..|shares| - 1] || s == last;
      if last in d then d else d + [last]
  }

  /** No shares: nothing kept. */
  lemma DedupeNone(shares: seq<Share>)
    ensures Dedupe(shares[..0]) == []
  {
    assert shares[..0] == [];
  }

  /** One more share: Dedupe keeps it exactly when it is new. */
  lemma DedupeSnoc(shares: seq<Share>, i: nat)
    requires i < |shares|
    ensures Dedupe(shares[..i + 1]) ==
              if shares[i] in Dedupe(shares[..i]) then Dedupe(shares[..i])
              else Dedupe(shares[..i]) + [shares[i]]
  {
    assert shares[..i + 1][..i] == shares[..i];
  }

  /** The first n shares have pairwise different x. */
  predicate DistinctXs(us: seq<Share>, n: nat)
    requires n <= |us|
  {
    forall a, b :: 0 <= a < b < n ==> us[a].x != us[b].x
  }

  /** The first n shares are as long as the first one. */
  predicate SameLengths(us: seq<Share>, n: nat)
    requires n <= |us|
  {
    forall a :: 0 <= a < n ==> |us[a].bytes| == |us[0].bytes|
  }

  /**
   * The loop that collects the x values: share by share, a repeated x
   * raises first, then a length different from the first share's.
   */
  function CheckXs(us: seq<Share>, n: nat): (r: Result<seq<int>>)
    requires n <= |us|
    ensures r.Ok? <==> DistinctXs(us, n) && SameLengths(us, n)
    ensures r.Err? ==> r.error == DuplicateShareIndex || r.error == UnequalShareLengths
    ensures r.Ok? ==> |r.value| == n && forall i :: 0 <= i < n ==> r.value[i] == us[i].x
  {
    if n == 0 then Ok([])
    else
      var prev := CheckXs(us, n - 1);
      if prev.Err? then prev
      else if us[n - 1].x in prev.value then
        assert !DistinctXs(us, n) by {
          var a :| 0 <= a < n - 1 && prev.value[a] == us[n - 1].x;
        }
        Err(DuplicateShareIndex)
      else if |us[n - 1].bytes| != |us[0].bytes| then Err(UnequalShareLengths)
      else
        assert DistinctXs(us, n) by {
          forall a | 0 <= a < n - 1
            ensures us[a].x != us[n - 1].x
          {
            assert prev.value[a] == us[a].x;
          }
        }
        Ok(prev.value + [us[n - 1].x])
  }

  /** Once the x loop has raised, the later shares do not matter. */
  lemma {:induction false} CheckXsStops(us: seq<Share>, i: nat, n: nat)
    requires i <= n <= |us| && CheckXs(us, i).Err?
    ensures CheckXs(us, n) == CheckXs(us, i)
    decreases n
  {
    hide *;
    if n > i {
      CheckXsStops(us, i, n - 1);
      CheckXsErr(us, n);
    }
  }

  /** No shares yet: nothing collected. */
  lemma CheckXsNone(us: seq<Share>)
    ensures CheckXs(us, 0) == Ok([])
  {
  }

  /** One more share after a clean prefix: the three outcomes of the loop body. */
  lemma CheckXsStep(us: seq<Share>, i: nat, xs: seq<int>)
    requires i < |us| && CheckXs(us, i) == Ok(xs)
    ensures CheckXs(us, i + 1) ==
              if us[i].x in xs then Err(DuplicateShareIndex)
              else if |us[i].bytes| != |us[0].bytes| then Err(UnequalShareLengths)
              else Ok(xs + [us[i].x])
  {
  }

  /** A failed prefix fails the longer prefix the same way. */
  lemma CheckXsErr(us: seq<Share>, n: nat)
    requires 0 < n <= |us| && CheckXs(us, n - 1).Err?
    ensures CheckXs(us, n) == CheckXs(us, n - 1)
  {
  }

  /**
   * The consistency test of recover_secretdata: the first t coefficients
   * followed by n - t zeros must give back the whole interpolant.
   */
  predicate HighTermsZero(poly: seq<bv8>, t: int, n: nat)
    requires t <= n
  {
    PyTake(poly, t) + Zeros(n - t) == poly
  }

  /** Every x fits in a byte. */
  predicate InRange(xs: seq<int>) {
    forall i :: 0 <= i < |xs| ==> 0 <= xs[i] <= 255
  }

  /** The points as bytes. */
  function ToBytes(xs: seq<int>): (r: seq<bv8>)
    requires InRange(xs)
    ensures |r| == |xs|
  {
    seq(|xs|, i requires 0 <= i < |xs| => ToByte(xs[i]))
  }

  /** Different points in 0..255 stay different as bytes. */
  lemma ToBytesDistinct(xs: seq<int>)
    requires InRange(xs)
    requires forall a, b :: 0 <= a < b < |xs| ==> xs[a] != xs[b]
    ensures Distinct(ToBytes(xs))
  {
    var ys := ToBytes(xs);
    forall a, b | 0 <= a < b < |xs|
      ensures ys[a] != ys[b]
    {
      assert ys[a] as int == xs[a] && ys[b] as int == xs[b];
    }
  }

  /**
   * The wrapper full_lagrange of the fast variant: the points are packed
   * into a bytearray, which refuses values outside 0..255; then the
   * interpolation is _full_lagrange's.
   */
  function LagrangeInts(xs: seq<int>, fxs: seq<bv8>): (r: Result<seq<bv8>>)
    requires |xs| == |fxs|
    ensures !InRange(xs) ==> r == Err(ByteRange)
    ensures r.Ok? ==> |r.value| == |xs|
  {
    if InRange(xs) then Interpolate(ToBytes(xs), fxs) else Err(ByteRange)
  }

  /** Byte b of every share. */
  function Column(us: seq<Share>, b: nat): (r: seq<bv8>)
    requires |us| > 0 && SameLengths(us, |us|) && b < |us[0].bytes|
    ensures |r| == |us|
  {
    seq(|us|, i requires 0 <= i < |us| => us[i].bytes[b])
  }

  /**
   * The byte loop over the first m byte positions: interpolate, test the
   * high coefficients, keep the whole interpolant and its constant term.
   */
  function RecoverBytes(us: seq<Share>, xs: seq<int>, t: int, m: nat): (r: Result<Recovered>)
    requires |us| > 0 && SameLengths(us, |us|) && |xs| == |us|
    requires m <= |us[0].bytes| && t <= |us|
    ensures r.Err? ==> r.error == ByteRange || r.error == ZeroDivision || r.error == InconsistentShares
    ensures r.Ok? ==> |r.value.coefficients| == m && |r.value.secret| == m
    ensures r.Ok? ==> forall k :: 0 <= k < m ==>
              |r.value.coefficients[k]| == |us| && r.value.coefficients[k][0] == r.value.secret[k]
  {
    if m == 0 then Ok(Recovered([], []))
    else
      var prev := RecoverBytes(us, xs, t, m - 1);
      if prev.Err? then prev
      else
        var poly := LagrangeInts(xs, Column(us, m - 1));
        if poly.Err? then Err(poly.error)
        else if !HighTermsZero(poly.value, t, |us|) then Err(InconsistentShares)
        else Ok(Recovered(prev.value.coefficients + [poly.value], prev.value.secret + [poly.value[0]]))
  }

  /** Once a byte position has failed, the later ones do not matter. */
  lemma {:induction false} RecoverBytesStops(us: seq<Share>, xs: seq<int>, t: int, i: nat, m: nat)
    requires |us| > 0 && SameLengths(us, |us|) && |xs| == |us|
    requires i <= m <= |us[0].bytes| && t <= |us|
    requires RecoverBytes(us, xs, t, i).Err?
    ensures RecoverBytes(us, xs, t, m) == RecoverBytes(us, xs, t, i)
    decreases m
  {
    hide *;
    if m > i {
      RecoverBytesStops(us, xs, t, i, m - 1);
      RecoverBytesErr(us, xs, t, m);
    }
  }

  /** No byte positions yet: nothing recovered. */
  lemma RecoverBytesNone(us: seq<Share>, xs: seq<int>, t: int)
    requires |us| > 0 && SameLengths(us, |us|) && |xs| == |us| && t <= |us|
    ensures RecoverBytes(us, xs, t, 0) == Ok(Recovered([], []))
  {
  }

  /** One more byte position after a clean prefix: the outcomes of the loop body. */
  lemma RecoverBytesStep(us: seq<Share>, xs: seq<int>, t: int, b: nat, rec: Recovered)
    requires |us| > 0 && SameLengths(us, |us|) && |xs| == |us|
    requires b < |us[0].bytes| && t <= |us|
    requires RecoverBytes(us, xs, t, b) == Ok(rec)
    ensures RecoverBytes(us, xs, t, b + 1) ==
              var poly := LagrangeInts(xs, Column(us, b));
              if poly.Err? then Err(poly.error)
              else if !HighTermsZero(poly.value, t, |us|) then Err(InconsistentShares)
              else Ok(Recovered(rec.coefficients + [poly.value], rec.secret + [poly.value[0]]))
  {
    hide LagrangeInts;
  }

  /** A failed prefix of byte positions fails the longer prefix the same way. */
  lemma RecoverBytesErr(us: seq<Share>, xs: seq<int>, t: int, m: nat)
    requires |us| > 0 && SameLengths(us, |us|) && |xs| == |us|
    requires 0 < m <= |us[0].bytes| && t <= |us|
    requires RecoverBytes(us, xs, t, m - 1).Err?
    ensures RecoverBytes(us, xs, t, m) == RecoverBytes(us, xs, t, m - 1)
  {
    hide LagrangeInts;
  }

  /**
   * recover_secretdata as a whole: de-duplicate, then the threshold test,
   * then the test for a secret already held, then the x values, then every
   * byte position.
   */
  function Recovery(t: int, known: bool, shares: seq<Share>): (r: Result<Recovered>)
    ensures t > |Dedupe(shares)| ==> r == Err(TooFewShares)
    ensures t <= |Dedupe(shares)| && known ==> r == Err(SecretAlreadyKnown)
    ensures r.Ok? ==> |r.value.coefficients| == |r.value.secret|
    ensures r.Ok? ==> forall k :: 0 <= k < |r.value.secret| ==>
              |r.value.coefficients[k]| >= 1 && r.value.coefficients[k][0] == r.value.secret[k]
  {
    var us := Dedupe(shares);
    if t > |us| then Err(TooFewShares)
    else if known then Err(SecretAlreadyKnown)
    else
      var xs := CheckXs(us, |us|);
      if xs.Err? then Err(xs.error)
      else if |us| == 0 then Err(NoShares)
      else
        var rec := RecoverBytes(us, xs.value, t, |us[0].bytes|);
        if rec.Err? then Err(rec.error) else Ok(rec.value)
  }

  // ---------------------------------------------------------------------
  // The class

  class ShamirSecret {
    var threshold: int
    var secretdata: Option<seq<bv8>>
    var coefficients: Option<seq<seq<bv8>>>

    /**
     * A secret is held exactly when coefficients are, one non-empty list
     * per secret byte, whose constant term is that byte.
     */
    predicate Valid()
      reads this
    {
      secretdata.Some? == coefficients.Some? &&
      (coefficients.Some? ==>
        |coefficients.value| == |secretdata.value| &&
        forall k :: 0 <= k < |secretdata.value| ==>
          |coefficients.value[k]| >= 1 && coefficients.value[k][0] == secretdata.value[k])
    }

    /** An object for recovery: the threshold only. */
    constructor (threshold: int)
      ensures Valid()
      ensures this.threshold == threshold && secretdata.None? && coefficients.None?
    {
      this.threshold := threshold;
      secretdata := None;
      coefficients := None;
    }

    /**
     * A seeded object: for every secret byte the coefficient list is the
     * byte followed by threshold - 1 random bytes (`randomness` stands for
     * os.urandom, one string per byte).
     */
    constructor Seeded(threshold: int, secret: seq<bv8>, randomness: seq<seq<bv8>>)
      requires |randomness| == |secret|
      requires forall k :: 0 <= k < |secret| ==> threshold >= 1 && |randomness[k]| == threshold - 1
      ensures Valid()
      ensures this.threshold == threshold && secretdata == Some(secret)
      ensures coefficients.Some? && |coefficients.value| == |secret|
      ensures forall k :: 0 <= k < |secret| ==>
                |coefficients.value[k]| == threshold && coefficients.value[k] == [secret[k]] + randomness[k]
    {
      var cs: seq<seq<bv8>> := [];
      for k := 0 to |secret|
        invariant |cs| == k
        invariant forall j :: 0 <= j < k ==> cs[j] == [secret[j]] + randomness[j]
      {
        cs := cs + [[secret[k]] + randomness[k]];
      }
      this.threshold := threshold;
      secretdata := Some(secret);
      coefficients := Some(cs);
    }

    /** compute_share, evaluating coefficient list by coefficient list. */
    method ComputeShare(x: int) returns (r: Result<Share>)
      ensures r == ShareAt(coefficients, x)
    {
      if x <= 0 || x >= 256 {
        return Err(InvalidShareIndex);
      }
      if coefficients.None? {
        return Err(NotInitialized);
      }
      var cs := coefficients.value;
      var xb := ToByte(x);
      var sharebytes: seq<bv8> := [];
      for k := 0 to |cs|
        invariant |sharebytes| == k
        invariant forall j :: 0 <= j < k ==> sharebytes[j] == Eval(cs[j], xb)
      {
        var thisshare := F(xb, cs[k]);
        sharebytes := sharebytes + [thisshare.value];
      }
      assert sharebytes == ShareBytes(cs, xb);
      return Ok(Share(x, sharebytes));
    }

    /** is_valid_share: recompute the share at the same x and compare. */
    method IsValidShare(share: Share) returns (r: Result<bool>)
      ensures r == ValidShare(coefficients, share)
    {
      if coefficients.None? {
        return Err(NotInitialized);
      }
      if |coefficients.value| != |share.bytes| {
        return Err(ShareLengthMismatch);
      }
      var correctshare := ComputeShare(share.x);
      if correctshare.Err? {
        return Err(correctshare.error);
      }
      return Ok(correctshare.value == share);
    }

    /**
     * recover_secretdata: the fields change only when every byte position
     * passes, and then hold what `Recovery` computes.
     */
    method RecoverSecretdata(shares: seq<Share>) returns (r: Result<()>)
      requires Valid()
      modifies this
      ensures Valid() && threshold == old(threshold)
      ensures r.Ok? <==> Recovery(old(threshold), old(secretdata).Some?, shares).Ok?
      ensures r.Err? ==> r.error == Recovery(old(threshold), old(secretdata).Some?, shares).error
      ensures r.Err? ==> secretdata == old(secretdata) && coefficients == old(coefficients)
      ensures r.Ok? ==>
                var rec := Recovery(old(threshold), old(secretdata).Some?, shares).value;
                coefficients == Some(rec.coefficients) && secretdata == Some(rec.secret)
    {
      var newshares := DedupeShares(shares);
      if threshold > |newshares| {
        return Err(TooFewShares);
      }
      if secretdata.Some? {
        return Err(SecretAlreadyKnown);
      }
      var xs := CollectXs(newshares);
      if xs.Err? {
        return Err(xs.error);
      }
      if |newshares| == 0 {
        return Err(NoShares);
      }
      var rec := RecoverAllBytes(newshares, xs.value, threshold);
      if rec.Err? {
        return Err(rec.error);
      }
      coefficients := Some(rec.value.coefficients);
      secretdata := Some(rec.value.secret);
      return Ok(());
    }
  }

  /** The loop of recover_secretdata that drops repeated shares. */
  method DedupeShares(shares: seq<Share>) returns (newshares: seq<Share>)
    ensures newshares == Dedupe(shares)
  {
    hide Dedupe;
    newshares := [];
    DedupeNone(shares);
    for i := 0 to |shares|
      invariant newshares == Dedupe(shares[..i])
    {
      DedupeSnoc(shares, i);
      if shares[i] !in newshares {
        newshares := newshares + [shares[i]];
      }
    }
    assert shares[..|shares|] == shares;
  }

  /** The loop of recover_secretdata that collects the x values. */
  method CollectXs(us: seq<Share>) returns (r: Result<seq<int>>)
    ensures r == CheckXs(us, |us|)
  {
    hide CheckXs;
    var xs: seq<int> := [];
    CheckXsNone(us);
    for i := 0 to |us|
      invariant CheckXs(us, i) == Ok(xs)
    {
      CheckXsStep(us, i, xs);
      if us[i].x in xs {
        CheckXsStops(us, i + 1, |us|);
        return Err(DuplicateShareIndex);
      }
      if |us[i].bytes| != |us[0].bytes| {
        CheckXsStops(us, i + 1, |us|);
        return Err(UnequalShareLengths);
      }
      xs := xs + [us[i].x];
    }
    return Ok(xs);
  }

  /**
   * The byte loop of recover_secretdata: gather byte b of every share,
   * interpolate, test the high coefficients, keep the interpolant and its
   * constant term.
   */
  method RecoverAllBytes(us: seq<Share>, xs: seq<int>, t: int) returns (r: Result<Recovered>)
    requires |us| > 0 && SameLengths(us, |us|) && |xs| == |us| && t <= |us|
    ensures r == RecoverBytes(us, xs, t, |us[0].bytes|)
  {
    hide LagrangeInts, RecoverBytes;
    var mycoefficients: seq<seq<bv8>> := [];
    var mysecretdata: seq<bv8> := [];
    RecoverBytesNone(us, xs, t);
    for b := 0 to |us[0].bytes|
      invariant RecoverBytes(us, xs, t, b) == Ok(Recovered(mycoefficients, mysecretdata))
    {
      RecoverBytesStep(us, xs, t, b, Recovered(mycoefficients, mysecretdata));
      var fxs: seq<bv8> := [];
      for s := 0 to |us|
        invariant |fxs| == s
        invariant forall j :: 0 <= j < s ==> fxs[j] == us[j].bytes[b]
      {
        fxs := fxs + [us[s].bytes[b]];
      }
      assert fxs == Column(us, b);
      var resultingpoly := FullLagrangeInts(xs, fxs);
      if resultingpoly.Err? {
        RecoverBytesStops(us, xs, t, b + 1, |us[0].bytes|);
        return Err(resultingpoly.error);
      }
      var poly := resultingpoly.value;
      if PyTake(poly, t) + Zeros(|us| - t) != poly {
        RecoverBytesStops(us, xs, t, b + 1, |us[0].bytes|);
        return Err(InconsistentShares);
      }
      mycoefficients := mycoefficients + [poly];
      mysecretdata := mysecretdata + [poly[0]];
    }
    return Ok(Recovered(mycoefficients, mysecretdata));
  }

  /** The fast variant's full_lagrange: pack the points into bytes, then interpolate. */
  method FullLagrangeInts(xs: seq<int>, fxs: seq<bv8>) returns (r: Result<seq<bv8>>)
    requires |xs| == |fxs|
    ensures r == LagrangeInts(xs, fxs)
  {
    var newxs: seq<bv8> := [];
    for i := 0 to |xs|
      invariant |newxs| == i
      invariant forall j :: 0 <= j < i ==> 0 <= xs[j] <= 255 && newxs[j] == ToByte(xs[j])
    {
      if xs[i] < 0 || xs[i] > 255 {
        return Err(ByteRange);
      }
      newxs := newxs + [ToByte(xs[i])];
    }
    hide Interpolate;
    assert newxs == ToBytes(xs);
    r := FullLagrange(newxs, fxs);
  }

  // ---------------------------------------------------------------------
  // What the scheme promises

  /** Shares that are pairwise different are all kept, in order. */
  lemma {:induction false} DedupeDistinct(shares: seq<Share>)
    requires forall a, b :: 0 <= a < b < |shares| ==> shares[a] != shares[b]
    ensures Dedupe(shares) == shares
    decreases |shares|
  {
    if shares != [] {
      var init := shares[..|shares| - 1];
      var last := shares[|shares| - 1];
      DedupeDistinct(init);
      assert last !in init;
      assert init + [last] == shares;
    }
  }

  /**
   * The consistency test, for a threshold within the share count, holds
   * exactly when every coefficient from position t on is zero.
   */
  lemma HighTermsZeroIff(poly: seq<bv8>, t: int, n: nat)
    requires |poly| == n && 0 <= t <= n
    ensures HighTermsZero(poly, t, n) <==> forall i :: t <= i < n ==> poly[i] == 0
  {
    var lhs := PyTake(poly, t) + Zeros(n - t);
    if forall i :: t <= i < n ==> poly[i] == 0 {
      assert forall i :: 0 <= i < n ==> lhs[i] == poly[i];
      assert lhs == poly;
    } else {
      var i :| t <= i < n && poly[i] != 0;
      assert lhs[i] == 0;
    }
  }

  /** A negative threshold fails the consistency test for any shares. */
  lemma NegativeThresholdInconsistent(poly: seq<bv8>, t: int)
    requires t < 0 && |poly| > 0
    ensures !HighTermsZero(poly, t, |poly|)
  {
    assert |PyTake(poly, t) + Zeros(|poly| - t)| > |poly|;
  }

  /** Shares issued from coefs at pairwise different points. */
  predicate Genuine(coefs: seq<seq<bv8>>, shares: seq<Share>) {
    (forall i :: 0 <= i < |shares| ==> ShareAt(Some(coefs), shares[i].x) == Ok(shares[i])) &&
    forall a, b :: 0 <= a < b < |shares| ==> shares[a].x != shares[b].x
  }

  /** The shares handed out at the points xs, in order. */
  function SharesAt(coefs: seq<seq<bv8>>, xs: seq<int>): (r: seq<Share>)
    requires forall i :: 0 <= i < |xs| ==> 1 <= xs[i] <= 255
    ensures |r| == |xs| && forall i :: 0 <= i < |xs| ==> ShareAt(Some(coefs), xs[i]) == Ok(r[i])
  {
    seq(|xs|, i requires 0 <= i < |xs| => ShareAt(Some(coefs), xs[i]).value)
  }

  /** The points first, first+1, ..., first+n-1. */
  function Consecutive(first: int, n: nat): (r: seq<int>)
    ensures |r| == n && forall k :: 0 <= k < n ==> r[k] == first + k
  {
    seq(n, k requires 0 <= k < n => first + k)
  }

  /** Shares handed out at pairwise different points are genuine. */
  lemma SharesAtGenuine(coefs: seq<seq<bv8>>, xs: seq<int>)
    requires forall i :: 0 <= i < |xs| ==> 1 <= xs[i] <= 255
    requires forall a, b :: 0 <= a < b < |xs| ==> xs[a] != xs[b]
    ensures Genuine(coefs, SharesAt(coefs, xs))
  {
    var r := SharesAt(coefs, xs);
    forall a, b | 0 <= a < b < |r|
      ensures r[a].x != r[b].x
    {
      assert ShareAt(Some(coefs), xs[a]) == Ok(r[a]) && ShareAt(Some(coefs), xs[b]) == Ok(r[b]);
    }
  }

  /** The shares at two runs of points, one after the other. */
  lemma SharesAtAppend(coefs: seq<seq<bv8>>, xs: seq<int>, ys: seq<int>)
    requires forall i :: 0 <= i < |xs| ==> 1 <= xs[i] <= 255
    requires forall i :: 0 <= i < |ys| ==> 1 <= ys[i] <= 255
    ensures SharesAt(coefs, xs + ys) == SharesAt(coefs, xs) + SharesAt(coefs, ys)
  {
    var r, p, q := SharesAt(coefs, xs + ys), SharesAt(coefs, xs), SharesAt(coefs, ys);
    forall i | 0 <= i < |r|
      ensures r[i] == (p + q)[i]
    {
      if i < |xs| {
        assert ShareAt(Some(coefs), xs[i]) == Ok(r[i]) == Ok(p[i]);
      } else {
        assert ShareAt(Some(coefs), ys[i - |xs|]) == Ok(r[i]) == Ok(q[i - |xs|]);
      }
    }
  }

  /** Every coefficient list padded with zeros to length n. */
  function Padded(coefs: seq<seq<bv8>>, n: nat): (r: seq<seq<bv8>>)
    requires forall k :: 0 <= k < |coefs| ==> |coefs[k]| <= n
    ensures |r| == |coefs|
  {
    seq(|coefs|, k requires 0 <= k < |coefs| => coefs[k] + Zeros(n - |coefs[k]|))
  }

  /** The constant term of every coefficient list. */
  function Secrets(coefs: seq<seq<bv8>>): (r: seq<bv8>)
    requires forall k :: 0 <= k < |coefs| ==> |coefs[k]| >= 1
    ensures |r| == |coefs|
  {
    seq(|coefs|, k requires 0 <= k < |coefs| => coefs[k][0])
  }

  /** In range, the fast wrapper is plain interpolation at the bytes. */
  lemma LagrangeIntsInRange(xs: seq<int>, fxs: seq<bv8>)
    requires |xs| == |fxs| && InRange(xs)
    ensures LagrangeInts(xs, fxs) == Interpolate(ToBytes(xs), fxs)
  {
  }

  /** A polynomial of at most t coefficients, padded to n, passes the consistency test. */
  lemma PaddedConsistent(c: seq<bv8>, t: int, n: nat)
    requires |c| <= t <= n
    ensures HighTermsZero(c + Zeros(n - |c|), t, n)
  {
    var poly := c + Zeros(n - |c|);
    HighTermsZeroIff(poly, t, n);
    assert forall i :: t <= i < n ==> poly[i] == Zeros(n - |c|)[i - |c|];
  }

  /** Byte b of every genuine share, interpolated, gives coefficient list b back. */
  lemma GenuineColumn(coefs: seq<seq<bv8>>, shares: seq<Share>, xs: seq<int>, t: int, b: nat)
    requires Genuine(coefs, shares) && |shares| > 0 && SameLengths(shares, |shares|)
    requires |xs| == |shares| && forall i :: 0 <= i < |xs| ==> xs[i] == shares[i].x
    requires b < |coefs| && |coefs[b]| <= t <= |shares|
    requires |shares[0].bytes| == |coefs|
    ensures InRange(xs)
    ensures LagrangeInts(xs, Column(shares, b)) == Ok(coefs[b] + Zeros(|shares| - |coefs[b]|))
  {
    hide LagrangeInts, Interpolate, Eval;
    var fxs := Column(shares, b);
    assert InRange(xs) by {
      forall i | 0 <= i < |xs|
        ensures 0 <= xs[i] <= 255
      {
        assert ShareAt(Some(coefs), shares[i].x).Ok?;
      }
    }
    var ys := ToBytes(xs);
    ToBytesDistinct(xs);
    forall k | 0 <= k < |ys|
      ensures fxs[k] == Eval(coefs[b], ys[k])
    {
      assert ShareAt(Some(coefs), shares[k].x) == Ok(shares[k]);
    }
    InterpolateRecovers(ys, coefs[b], fxs);
    LagrangeIntsInRange(xs, fxs);
  }

  /**
   * The byte loop over genuine shares: every position gives back its
   * coefficient list, padded, and its constant term.
   */
  lemma {:induction false} RecoverBytesGenuine(coefs: seq<seq<bv8>>, shares: seq<Share>, xs: seq<int>, t: int, m: nat)
    requires Genuine(coefs, shares) && |shares| > 0 && SameLengths(shares, |shares|)
    requires |xs| == |shares| && forall i :: 0 <= i < |xs| ==> xs[i] == shares[i].x
    requires forall k :: 0 <= k < |coefs| ==> 1 <= |coefs[k]| <= t
    requires t <= |shares| && m <= |coefs| == |shares[0].bytes|
    ensures RecoverBytes(shares, xs, t, m) ==
              Ok(Recovered(Padded(coefs[..m], |shares|), Secrets(coefs[..m])))
    decreases m
  {
    hide *;
    if m == 0 {
      RecoverBytesNone(shares, xs, t);
      assert Padded(coefs[..0], |shares|) == [];
      assert Secrets(coefs[..0]) == [];
    } else {
      var n := |shares|;
      RecoverBytesGenuine(coefs, shares, xs, t, m - 1);
      var prev := Recovered(Padded(coefs[..m - 1], n), Secrets(coefs[..m - 1]));
      RecoverBytesStep(shares, xs, t, m - 1, prev);
      GenuineColumn(coefs, shares, xs, t, m - 1);
      var poly := coefs[m - 1] + Zeros(n - |coefs[m - 1]|);
      PaddedConsistent(coefs[m - 1], t, n);
      assert poly[0] == coefs[m - 1][0];
      PaddedSnoc(coefs, n, m);
      SecretsSnoc(coefs, m);
    }
  }

  /** Padding one more coefficient list. */
  lemma PaddedSnoc(coefs: seq<seq<bv8>>, n: nat, m: nat)
    requires 0 < m <= |coefs| && forall k :: 0 <= k < |coefs| ==> |coefs[k]| <= n
    ensures Padded(coefs[..m], n) == Padded(coefs[..m - 1], n) + [coefs[m - 1] + Zeros(n - |coefs[m - 1]|)]
  {
  }

  /** The constant term of one more coefficient list. */
  lemma SecretsSnoc(coefs: seq<seq<bv8>>, m: nat)
    requires 0 < m <= |coefs| && forall k :: 0 <= k < |coefs| ==> |coefs[k]| >= 1
    ensures Secrets(coefs[..m]) == Secrets(coefs[..m - 1]) + [coefs[m - 1][0]]
  {
  }

  /**
   * Recovery from at least t genuine shares, by an object that holds no
   * secret yet, gives back every coefficient list (padded with zeros to
   * the number of shares) and the secret, its constant terms.
   */
  lemma RecoverRoundTrip(t: int, coefs: seq<seq<bv8>>, shares: seq<Share>)
    requires 1 <= t <= |shares|
    requires forall k :: 0 <= k < |coefs| ==> 1 <= |coefs[k]| <= t
    requires Genuine(coefs, shares)
    ensures Recovery(t, false, shares) ==
              Ok(Recovered(Padded(coefs, |shares|), Secrets(coefs)))
  {
    hide RecoverBytes, Padded, Secrets;
    forall a, b | 0 <= a < b < |shares|
      ensures shares[a] != shares[b]
    {
      assert shares[a].x != shares[b].x;
    }
    DedupeDistinct(shares);
    forall i | 0 <= i < |shares|
      ensures |shares[i].bytes| == |coefs|
    {
      assert ShareAt(Some(coefs), shares[i].x) == Ok(shares[i]);
    }
    assert DistinctXs(shares, |shares|) && SameLengths(shares, |shares|);
    var xs := CheckXs(shares, |shares|).value;
    RecoverBytesGenuine(coefs, shares, xs, t, |coefs|);
    assert coefs[..|coefs|] == coefs;
  }

  /**
   * Padding the coefficient lists with zeros changes no share: the
   * recovered object issues the same share at every x as the original.
   */
  lemma PaddedSharesAgree(coefs: seq<seq<bv8>>, n: nat, x: int)
    requires forall k :: 0 <= k < |coefs| ==> |coefs[k]| <= n
    ensures ShareAt(Some(Padded(coefs, n)), x) == ShareAt(Some(coefs), x)
  {
    if 1 <= x <= 255 {
      var p := Padded(coefs, n);
      forall k | 0 <= k < |coefs|
        ensures Eval(p[k], ToByte(x)) == Eval(coefs[k], ToByte(x))
      {
        EvalPadded(coefs[k], n - |coefs[k]|, ToByte(x));
      }
      assert ShareBytes(p, ToByte(x)) == ShareBytes(coefs, ToByte(x));
    }
  }

  /** ... and so it accepts exactly the shares the original accepts. */
  lemma PaddedValidAgree(coefs: seq<seq<bv8>>, n: nat, share: Share)
    requires forall k :: 0 <= k < |coefs| ==> |coefs[k]| <= n
    ensures ValidShare(Some(Padded(coefs, n)), share) == ValidShare(Some(coefs), share)
  {
    PaddedSharesAgree(coefs, n, share.x);
  }

  /**
   * A recovery that succeeds on shares with at least one byte had every x
   * fit in a byte: a share at an x outside 0..255 makes it fail.
   */
  lemma RecoveryNeedsByteXs(t: int, known: bool, shares: seq<Share>, s: Share)
    requires Recovery(t, known, shares).Ok? && s in shares && |s.bytes| > 0
    ensures 0 <= s.x <= 255
  {
    hide LagrangeInts, Interpolate;
    var us := Dedupe(shares);
    var j :| 0 <= j < |us| && us[j] == s;
    var xs := CheckXs(us, |us|).value;
    var m := |us[0].bytes|;
    if RecoverBytes(us, xs, t, 1).Err? {
      RecoverBytesStops(us, xs, t, 1, m);
    }
    assert RecoverBytes(us, xs, t, 1).Ok?;
    RecoverBytesNone(us, xs, t);
    assert LagrangeInts(xs, Column(us, 0)).Ok?;
    assert xs[j] == s.x;
  }
}
