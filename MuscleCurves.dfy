/** The curve factories of AxialMuscleMaterialBase: each validates its shape parameters
    in a fixed order, failing with the message of the first violated check, and then
    places a handful of knots by literal formulas. The force-velocity factory adds up to
    two anti-inflexion knots. Doubles are modelled as reals. */
module MuscleCurves {
  import opened Wrappers
  import opened Splines
  import opened JavaMath

  // ---------------------------------------------------------------------------
  // Ordered validation

  /** One validation step: whether the parameters pass it, and the message of the
      IllegalArgumentException thrown when they do not. */
  datatype Check = Check(passes: bool, message: string)

  /** The message of the first failing check, or None when every check passes. */
  function FirstFailure(cs: seq<Check>): (r: Option<string>)
    ensures r.None? <==> forall i :: 0 <= i < |cs| ==> cs[i].passes
    ensures r.Some? ==>
      exists i :: 0 <= i < |cs| && !cs[i].passes && cs[i].message == r.value &&
        forall j :: 0 <= j < i ==> cs[j].passes
  {
    if cs == [] then None
    else if !cs[0].passes then Some(cs[0].message)
    else
      var r := FirstFailure(cs[1..]);
      assert r.None? ==> forall i :: 0 <= i < |cs| ==> cs[i].passes by {
        if r.None? {
          forall i | 0 <= i < |cs| ensures cs[i].passes {
            if i > 0 { assert cs[i] == cs[1..][i - 1]; }
          }
        }
      }
      assert r.Some? ==>
        exists i :: 0 <= i < |cs| && !cs[i].passes && cs[i].message == r.value &&
          forall j :: 0 <= j < i ==> cs[j].passes
      by {
        if r.Some? {
          var i :| 0 <= i < |cs[1..]| && !cs[1..][i].passes && cs[1..][i].message == r.value &&
            forall j :: 0 <= j < i ==> cs[1..][j].passes;
          assert cs[i + 1] == cs[1..][i];
          forall j | 0 <= j < i + 1 ensures cs[j].passes {
            if j > 0 { assert cs[j] == cs[1..][j - 1]; }
          }
        }
      }
      r
  }

  // ---------------------------------------------------------------------------
  // Active force-length curve

  datatype ActiveForceLengthParams = ActiveForceLengthParams(
    minActiveNormFiberLength: real,
    transitionNormFiberLength: real,
    maxActiveNormFiberLength: real,
    shallowAscendingSlope: real,
    minimumValue: real)

  /** The seven checks of createActiveForceLengthCurve, in source order. The sixth is
      reached only when the second has passed, which keeps its division defined. */
  function ActiveForceLengthChecks(p: ActiveForceLengthParams): seq<Check>
  {
    [ Check(p.minActiveNormFiberLength > 0.0,
            "minActiveNormFiberLength must be > 0"),
      Check(p.transitionNormFiberLength < 1.0,
            "transitionNormFiberLength must be < 1"),
      Check(p.minActiveNormFiberLength < p.transitionNormFiberLength,
            "minActiveNormFiberLength must be < transitionNormFiberLength"),
      Check(p.maxActiveNormFiberLength > 1.0,
            "maxActiveNormFiberLength must be > 1"),
      Check(p.shallowAscendingSlope >= 0.0,
            "shallowAscendingSlope must be >= 0"),
      Check(p.transitionNormFiberLength >= 1.0 ||
            p.shallowAscendingSlope < 1.0 / (1.0 - p.transitionNormFiberLength),
            "shallowAscendingSlope must be < 1/(1-transitionNormFiberLength)"),
      Check(p.minimumValue >= 0.0,
            "minimumValue must be >= 0") ]
  }

  /** The documented domain of the active force-length parameters. */
  ghost predicate ActiveForceLengthValid(p: ActiveForceLengthParams)
  {
    && 0.0 < p.minActiveNormFiberLength < p.transitionNormFiberLength < 1.0
    && p.maxActiveNormFiberLength > 1.0
    && 0.0 <= p.shallowAscendingSlope < 1.0 / (1.0 - p.transitionNormFiberLength)
    && p.minimumValue >= 0.0
  }

  lemma ActiveForceLengthChecksPass(p: ActiveForceLengthParams)
    ensures FirstFailure(ActiveForceLengthChecks(p)).None? <==> ActiveForceLengthValid(p)
  {
    if FirstFailure(ActiveForceLengthChecks(p)).None? {
      ActiveForceLengthPassingValid(p);
    } else if ActiveForceLengthValid(p) {
      ActiveForceLengthValidPassing(p);
    }
  }

  /** Valid parameters pass every check. */
  lemma ActiveForceLengthValidPassing(p: ActiveForceLengthParams)
    requires ActiveForceLengthValid(p)
    ensures forall i :: 0 <= i < |ActiveForceLengthChecks(p)| ==> ActiveForceLengthChecks(p)[i].passes
  {
  }

  /** Parameters that pass every check are valid. */
  lemma ActiveForceLengthPassingValid(p: ActiveForceLengthParams)
    requires forall i :: 0 <= i < |ActiveForceLengthChecks(p)| ==> ActiveForceLengthChecks(p)[i].passes
    ensures ActiveForceLengthValid(p)
  {
    var cs := ActiveForceLengthChecks(p);
    assert cs[0].passes && cs[1].passes && cs[2].passes && cs[3].passes;
    assert cs[4].passes && cs[5].passes && cs[6].passes;
  }

  /** The four knots of a valid active force-length curve, in order of x. */
  function ActiveForceLengthKnots(p: ActiveForceLengthParams): seq<Knot>
  {
    var xt := p.transitionNormFiberLength;
    [ Knot(p.minActiveNormFiberLength, p.minimumValue, 0.0),
      Knot(xt, 1.0 - p.shallowAscendingSlope * (1.0 - xt), p.shallowAscendingSlope),
      Knot(1.0, 1.0, 0.0),
      Knot(p.maxActiveNormFiberLength, p.minimumValue, 0.0) ]
  }

  /** Validation forces the knots into strictly increasing x, puts the transition value
      in (0, 1] and passes the curve through the peak (1, 1). */
  lemma ActiveForceLengthShape(p: ActiveForceLengthParams)
    requires ActiveForceLengthValid(p)
    ensures StrictlyIncreasing(ActiveForceLengthKnots(p))
    ensures 0.0 < ActiveForceLengthKnots(p)[1].y <= 1.0
    ensures ActiveForceLengthKnots(p)[2] == Knot(1.0, 1.0, 0.0)
  {
    var xt := p.transitionNormFiberLength;
    var s := p.shallowAscendingSlope;
    assert 1.0 - xt > 0.0;
    assert s * (1.0 - xt) < 1.0 / (1.0 - xt) * (1.0 - xt);
    assert s * (1.0 - xt) >= 0.0;
  }

  /** Adding the four knots in source order, each at the end, yields the knot list. */
  lemma ActiveForceLengthBuild(p: ActiveForceLengthParams)
    requires ActiveForceLengthValid(p)
    ensures var ks := ActiveForceLengthKnots(p);
      InsertSorted(InsertSorted(InsertSorted(InsertSorted([], ks[0]), ks[1]), ks[2]), ks[3]) == ks
  {
    var ks := ActiveForceLengthKnots(p);
    ActiveForceLengthShape(p);
    BuildInOrder4(ks[0], ks[1], ks[2], ks[3]);
  }

  method CreateActiveForceLengthCurve(p: ActiveForceLengthParams) returns (r: Result<Spline, string>)
    ensures r.Failure? <==> FirstFailure(ActiveForceLengthChecks(p)).Some?
    ensures r.Failure? ==> Some(r.error) == FirstFailure(ActiveForceLengthChecks(p))
    ensures r.Success? ==>
      ActiveForceLengthValid(p) && fresh(r.value) && r.value.Valid() &&
      r.value.knots == ActiveForceLengthKnots(p)
  {
    var failure := FirstFailure(ActiveForceLengthChecks(p));
    if failure.Some? {
      return Failure(failure.value);
    }
    ActiveForceLengthChecksPass(p);
    ActiveForceLengthBuild(p);
    var ks := ActiveForceLengthKnots(p);
    var curve := new Spline();
    curve.AddKnot(ks[0].x, ks[0].y, ks[0].dy);  // start point
    curve.AddKnot(ks[1].x, ks[1].y, ks[1].dy);  // trans point
    curve.AddKnot(ks[2].x, ks[2].y, ks[2].dy);  // max point
    curve.AddKnot(ks[3].x, ks[3].y, ks[3].dy);  // end point
    return Success(curve);
  }

  // ---------------------------------------------------------------------------
  // Tendon force-length curve

  datatype TendonForceLengthParams = TendonForceLengthParams(
    strainAtOneNormForce: real,
    stiffnessAtOneNormForce: real,
    normForceAtToeEnd: real,
    curviness: real)

  /** The four checks of createTendonForceLengthCurve, in source order. */
  function TendonForceLengthChecks(p: TendonForceLengthParams): seq<Check>
  {
    [ Check(p.strainAtOneNormForce > 0.0,
            "strainAtOneNormForce must be > 0"),
      Check(p.strainAtOneNormForce <= 0.0 ||
            p.stiffnessAtOneNormForce > 1.0 / p.strainAtOneNormForce,
            "stiffnessAtOneNormForce must be > 1/strainAtOneNormForce"),
      Check(!(p.normForceAtToeEnd <= 0.0 || p.normForceAtToeEnd >= 1.0),
            "normForceAtToeEnd must be in the range (0,1)"),
      Check(!(p.curviness < 0.0 || p.curviness > 1.0),
            "curviness must be in the range [0,1]") ]
  }

  ghost predicate TendonForceLengthValid(p: TendonForceLengthParams)
  {
    && p.strainAtOneNormForce > 0.0
    && p.stiffnessAtOneNormForce > 1.0 / p.strainAtOneNormForce
    && 0.0 < p.normForceAtToeEnd < 1.0
    && 0.0 <= p.curviness <= 1.0
  }

  lemma TendonForceLengthChecksPass(p: TendonForceLengthParams)
    ensures FirstFailure(TendonForceLengthChecks(p)).None? <==> TendonForceLengthValid(p)
  {
    var cs := TendonForceLengthChecks(p);
    if FirstFailure(cs).None? {
      assert cs[0].passes && cs[1].passes && cs[2].passes && cs[3].passes;
    }
  }

  /** x of the knot where the toe region becomes linear. */
  function TendonToeEnd(p: TendonForceLengthParams): real
    requires TendonForceLengthValid(p)
  {
    var xIso := 1.0 + p.strainAtOneNormForce;
    (p.normForceAtToeEnd - 1.0) / p.stiffnessAtOneNormForce + xIso
  }

  /** The three knots of a valid tendon curve, in order of x. */
  function TendonForceLengthKnots(p: TendonForceLengthParams): seq<Knot>
    requires TendonForceLengthValid(p)
  {
    [ Knot(1.0, 0.0, 0.0),
      Knot(TendonToeEnd(p), p.normForceAtToeEnd, p.stiffnessAtOneNormForce),
      Knot(1.0 + p.strainAtOneNormForce, 1.0, p.stiffnessAtOneNormForce) ]
  }

  /** k > 1/e with e > 0 means k e > 1. */
  lemma ExceedsReciprocal(e: real, k: real)
    requires e > 0.0
    requires k > 1.0 / e
    ensures k * e > 1.0
  {
    var inv := 1.0 / e;
    var ke := k * e;
    var ie := inv * e;
    assert ie == 1.0;
    assert (k - inv) * e == ke - ie;
    assert (k - inv) * e > 0.0;
    assert ke - ie > 0.0;
  }

  /** The conditions k > 1/e and 0 < fToe < 1 put the toe-end knot strictly between the
      start knot (1, 0) and the ISO knot (1+e, 1). The curviness plays no part. */
  lemma TendonForceLengthShape(p: TendonForceLengthParams)
    requires TendonForceLengthValid(p)
    ensures 1.0 < TendonToeEnd(p) < 1.0 + p.strainAtOneNormForce
    ensures StrictlyIncreasing(TendonForceLengthKnots(p))
  {
    var e, k, f := p.strainAtOneNormForce, p.stiffnessAtOneNormForce, p.normForceAtToeEnd;
    assert 1.0 / e > 0.0;
    assert k > 0.0;
    ExceedsReciprocal(e, k);
    var d := (f - 1.0) / k;
    assert d * k == f - 1.0;
    assert d < 0.0;
    assert -d < e by {
      assert -d * k == 1.0 - f;
    }
  }

  /** Adding start, ISO and toe-end knots in source order yields the knot list. */
  lemma TendonForceLengthBuild(p: TendonForceLengthParams)
    requires TendonForceLengthValid(p)
    ensures var ks := TendonForceLengthKnots(p);
      InsertSorted(InsertSorted(InsertSorted([], ks[0]), ks[2]), ks[1]) == ks
  {
    var ks := TendonForceLengthKnots(p);
    TendonForceLengthShape(p);
    BuildMiddleLast3(ks[0], ks[1], ks[2]);
  }

  /** The curviness is validated but does not affect the knots. */
  lemma TendonIgnoresCurviness(p: TendonForceLengthParams, c: real)
    requires TendonForceLengthValid(p)
    requires 0.0 <= c <= 1.0
    ensures TendonForceLengthKnots(p.(curviness := c)) == TendonForceLengthKnots(p)
  {
  }

  method CreateTendonForceLengthCurve(p: TendonForceLengthParams) returns (r: Result<Spline, string>)
    ensures r.Failure? <==> FirstFailure(TendonForceLengthChecks(p)).Some?
    ensures r.Failure? ==> Some(r.error) == FirstFailure(TendonForceLengthChecks(p))
    ensures r.Success? ==>
      TendonForceLengthValid(p) && fresh(r.value) && r.value.Valid() &&
      r.value.knots == TendonForceLengthKnots(p)
  {
    var failure := FirstFailure(TendonForceLengthChecks(p));
    if failure.Some? {
      return Failure(failure.value);
    }
    TendonForceLengthChecksPass(p);
    TendonForceLengthBuild(p);
    var ks := TendonForceLengthKnots(p);
    var curve := new Spline();
    curve.AddKnot(ks[0].x, ks[0].y, ks[0].dy);  // start point
    curve.AddKnot(ks[2].x, ks[2].y, ks[2].dy);  // ISO point
    curve.AddKnot(ks[1].x, ks[1].y, ks[1].dy);  // where the curved section becomes linear
    return Success(curve);
  }

  // ---------------------------------------------------------------------------
  // Passive force-length curve

  datatype PassiveForceLengthParams = PassiveForceLengthParams(
    strainAtZeroForce: real,
    strainAtOneNormForce: real,
    stiffnessAtLowForce: real,
    stiffnessAtOneNormForce: real,
    curviness: real)

  /** The five checks of createPassiveForceLengthCurve, in source order. */
  function PassiveForceLengthChecks(p: PassiveForceLengthParams): seq<Check>
  {
    [ Check(p.strainAtZeroForce < p.strainAtOneNormForce,
            "strainAtZeroForce must be < strainAtOneNormForce"),
      Check(p.strainAtZeroForce >= p.strainAtOneNormForce ||
            p.stiffnessAtOneNormForce > 1.0 / (p.strainAtOneNormForce - p.strainAtZeroForce),
            "stiffnessAtOneNormForce must be > 1/(strainAtOneNormForce-strainAtZeroForce)"),
      Check(p.stiffnessAtLowForce > 0.0,
            "stiffnessAtLowForce must be > 0"),
      Check(p.stiffnessAtLowForce < p.stiffnessAtOneNormForce,
            "stiffnessAtLowForce must be < stiffnessAtOneNormForce"),
      Check(!(p.curviness < 0.0 || p.curviness > 1.0),
            "curviness must be in the range [0,1]") ]
  }

  ghost predicate PassiveForceLengthValid(p: PassiveForceLengthParams)
  {
    && p.strainAtZeroForce < p.strainAtOneNormForce
    && p.stiffnessAtOneNormForce > 1.0 / (p.strainAtOneNormForce - p.strainAtZeroForce)
    && 0.0 < p.stiffnessAtLowForce < p.stiffnessAtOneNormForce
    && 0.0 <= p.curviness <= 1.0
  }

  lemma PassiveForceLengthChecksPass(p: PassiveForceLengthParams)
    ensures FirstFailure(PassiveForceLengthChecks(p)).None? <==> PassiveForceLengthValid(p)
  {
    if FirstFailure(PassiveForceLengthChecks(p)).None? {
      PassiveForceLengthPassingValid(p);
    } else if PassiveForceLengthValid(p) {
      PassiveForceLengthValidPassing(p);
    }
  }

  /** Valid parameters pass every check. */
  lemma PassiveForceLengthValidPassing(p: PassiveForceLengthParams)
    requires PassiveForceLengthValid(p)
    ensures forall i :: 0 <= i < |PassiveForceLengthChecks(p)| ==> PassiveForceLengthChecks(p)[i].passes
  {
  }

  /** Parameters that pass every check are valid. */
  lemma PassiveForceLengthPassingValid(p: PassiveForceLengthParams)
    requires forall i :: 0 <= i < |PassiveForceLengthChecks(p)| ==> PassiveForceLengthChecks(p)[i].passes
    ensures PassiveForceLengthValid(p)
  {
    var cs := PassiveForceLengthChecks(p);
    assert cs[0].passes && cs[1].passes && cs[2].passes && cs[3].passes && cs[4].passes;
  }

  /** Offset of the intermediate knot from the start knot. */
  function PassiveDeltaX(p: PassiveForceLengthParams): real
    requires PassiveForceLengthValid(p)
  {
    var xStart := 1.0 + p.strainAtZeroForce;
    var xIso := 1.0 + p.strainAtOneNormForce;
    assert p.stiffnessAtOneNormForce > 0.0;
    Min(0.1 * (1.0 / p.stiffnessAtOneNormForce), 0.1 * (xIso - xStart))
  }

  /** The three knots of a valid passive curve, in order of x. */
  function PassiveForceLengthKnots(p: PassiveForceLengthParams): seq<Knot>
    requires PassiveForceLengthValid(p)
  {
    var xStart := 1.0 + p.strainAtZeroForce;
    var xIso := 1.0 + p.strainAtOneNormForce;
    var xLow := xStart + PassiveDeltaX(p);
    var xfoot := xStart + 0.5 * (xLow - xStart);
    [ Knot(xStart, 0.0, 0.0),
      Knot(xStart + PassiveDeltaX(p), p.stiffnessAtLowForce * (xLow - xfoot), p.stiffnessAtLowForce),
      Knot(xIso, 1.0, p.stiffnessAtOneNormForce) ]
  }

  /** deltaX lies strictly inside (0, xIso - xStart), so the intermediate knot lies
      strictly between the start and ISO knots, and its value is kLow * deltaX / 2. */
  lemma PassiveForceLengthShape(p: PassiveForceLengthParams)
    requires PassiveForceLengthValid(p)
    ensures 0.0 < PassiveDeltaX(p) < p.strainAtOneNormForce - p.strainAtZeroForce
    ensures PassiveForceLengthKnots(p)[1].y == p.stiffnessAtLowForce * PassiveDeltaX(p) / 2.0
    ensures StrictlyIncreasing(PassiveForceLengthKnots(p))
  {
    assert p.stiffnessAtOneNormForce > 0.0;
    assert 1.0 / p.stiffnessAtOneNormForce > 0.0;
  }

  /** Adding start, ISO and intermediate knots in source order yields the knot list. */
  lemma PassiveForceLengthBuild(p: PassiveForceLengthParams)
    requires PassiveForceLengthValid(p)
    ensures var ks := PassiveForceLengthKnots(p);
      InsertSorted(InsertSorted(InsertSorted([], ks[0]), ks[2]), ks[1]) == ks
  {
    var ks := PassiveForceLengthKnots(p);
    PassiveForceLengthShape(p);
    BuildMiddleLast3(ks[0], ks[1], ks[2]);
  }

  /** The curviness is validated but does not affect the knots. */
  lemma PassiveIgnoresCurviness(p: PassiveForceLengthParams, c: real)
    requires PassiveForceLengthValid(p)
    requires 0.0 <= c <= 1.0
    ensures PassiveForceLengthKnots(p.(curviness := c)) == PassiveForceLengthKnots(p)
  {
    var q := p.(curviness := c);
    assert q.strainAtZeroForce == p.strainAtZeroForce && q.strainAtOneNormForce == p.strainAtOneNormForce;
    assert q.stiffnessAtLowForce == p.stiffnessAtLowForce;
    assert q.stiffnessAtOneNormForce == p.stiffnessAtOneNormForce;
    assert PassiveDeltaX(q) == PassiveDeltaX(p);
    var kq, kp := PassiveForceLengthKnots(q), PassiveForceLengthKnots(p);
    assert kq[0] == kp[0] && kq[1] == kp[1] && kq[2] == kp[2];
  }

  method CreatePassiveForceLengthCurve(p: PassiveForceLengthParams) returns (r: Result<Spline, string>)
    ensures r.Failure? <==> FirstFailure(PassiveForceLengthChecks(p)).Some?
    ensures r.Failure? ==> Some(r.error) == FirstFailure(PassiveForceLengthChecks(p))
    ensures r.Success? ==>
      PassiveForceLengthValid(p) && fresh(r.value) && r.value.Valid() &&
      r.value.knots == PassiveForceLengthKnots(p)
  {
    var failure := FirstFailure(PassiveForceLengthChecks(p));
    if failure.Some? {
      return Failure(failure.value);
    }
    PassiveForceLengthChecksPass(p);
    PassiveForceLengthBuild(p);
    var ks := PassiveForceLengthKnots(p);
    var curve := new Spline();
    curve.AddKnot(ks[0].x, ks[0].y, ks[0].dy);  // start point
    curve.AddKnot(ks[2].x, ks[2].y, ks[2].dy);  // ISO point
    curve.AddKnot(ks[1].x, ks[1].y, ks[1].dy);  // intermediate knot between start and ISO
    return Success(curve);
  }

  // ---------------------------------------------------------------------------
  // Anti-inflexion knot

  /** A 2x2 matrix given row by row, as Matrix2d (m00, m01, m10, m11). */
  datatype Matrix2 = Matrix2(m00: real, m01: real, m10: real, m11: real)

  function Det(m: Matrix2): real
  {
    m.m00 * m.m11 - m.m01 * m.m10
  }

  /** The solution of m c = (b0, b1) by Cramer's rule. */
  function Solve(m: Matrix2, b0: real, b1: real): (c: (real, real))
    requires Det(m) != 0.0
    ensures m.m00 * c.0 + m.m01 * c.1 == b0
    ensures m.m10 * c.0 + m.m11 * c.1 == b1
  {
    var d := Det(m);
    var u := b0 * m.m11 - m.m01 * b1;
    var v := m.m00 * b1 - m.m10 * b0;
    CramerNumerators(m.m00, m.m01, m.m10, m.m11, b0, b1);
    ScaledRow(m.m00, m.m01, u, v, d, b0);
    ScaledRow(m.m10, m.m11, u, v, d, b1);
    (u / d, v / d)
  }

  /** Each row applied to Cramer's numerators gives its right-hand side times the determinant. */
  lemma CramerNumerators(a: real, b: real, c: real, e: real, b0: real, b1: real)
    ensures a * (b0 * e - b * b1) + b * (a * b1 - c * b0) == b0 * (a * e - b * c)
    ensures c * (b0 * e - b * b1) + e * (a * b1 - c * b0) == b1 * (a * e - b * c)
  {
  }

  /** Dividing both numerators by a nonzero d divides the row's value by d. */
  lemma ScaledRow(a: real, b: real, u: real, v: real, d: real, rhs: real)
    requires d != 0.0 && a * u + b * v == rhs * d
    ensures a * (u / d) + b * (v / d) == rhs
  {
    var x := u / d;
    var y := v / d;
    assert x * d == u && y * d == v;
    assert (a * x + b * y) * d == a * (x * d) + b * (y * d);
    assert (a * x + b * y) * d == rhs * d;
    assert ((a * x + b * y) - rhs) * d == 0.0;
  }

  /** The system solved on the forward branch, for the reduced tau, and on the backward one. */
  function ForwardMatrix(tau: real, h: real): Matrix2
  {
    Matrix2(tau * tau / 3.0, (2.0 * tau - h) * h / 6.0, tau / 2.0, h / 2.0)
  }

  function BackwardMatrix(tau: real, h: real): Matrix2
  {
    Matrix2(-tau * tau / 3.0, -(2.0 * tau - h) * h / 6.0, tau / 2.0, h / 2.0)
  }

  /** Both matrices have determinant of magnitude tau h^2 / 12, so they are nonsingular
      for tau, h > 0 and Matrix2d.solve's result never needs inspecting. */
  lemma AntiInflexionDeterminants(tau: real, h: real)
    ensures Det(ForwardMatrix(tau, h)) == tau * h * h / 12.0
    ensures Det(BackwardMatrix(tau, h)) == -(tau * h * h / 12.0)
    ensures tau > 0.0 && h > 0.0 ==> Det(ForwardMatrix(tau, h)) > 0.0 && Det(BackwardMatrix(tau, h)) < 0.0
  {
    assert Det(ForwardMatrix(tau, h)) == tau * h * h / 12.0;
    assert Det(BackwardMatrix(tau, h)) == -(tau * h * h / 12.0);
    if tau > 0.0 && h > 0.0 {
      var th := tau * h;
      assert th > 0.0;
      assert th * h > 0.0;
      assert tau * h * h == th * h;
    }
  }

  /** Zero of the tangent curvature, from the forward and from the backward end. */
  function ForwardTau(k0: Knot, k1: Knot): real
    requires k1.dy - k0.dy != 0.0
  {
    3.0 * (k1.dy * (k1.x - k0.x) - (k1.y - k0.y)) / (k1.dy - k0.dy)
  }

  function BackwardTau(k0: Knot, k1: Knot): real
    requires k1.dy - k0.dy != 0.0
  {
    3.0 * ((k1.y - k0.y) - k0.dy * (k1.x - k0.x)) / (k1.dy - k0.dy)
  }

  /** The knot placed at x0 + tau by the forward branch, from the solution (c0, ctau)
      of the forward system. */
  function ForwardKnot(k0: Knot, k1: Knot, tau: real): Knot
    requires tau > 0.0 && k1.x - k0.x > 0.0
  {
    var h := k1.x - k0.x;
    AntiInflexionDeterminants(tau, h);
    var c := Solve(ForwardMatrix(tau, h),
                   k1.y - k0.y + (k1.dy - k0.dy) * tau - h * k1.dy, k1.dy - k0.dy);
    var ytau := k0.y + k0.dy * tau + (c.0 / 3.0 + c.1 / 6.0) * tau * tau;
    var dytau := k0.dy + (c.0 + c.1) * tau / 2.0;
    Knot(k0.x + tau, ytau, dytau)
  }

  /** The knot placed at x0 + h - tau by the backward branch, from the solution
      (c1, ctau) of the backward system. */
  function BackwardKnot(k0: Knot, k1: Knot, tau: real): Knot
    requires tau > 0.0 && k1.x - k0.x > 0.0
  {
    var h := k1.x - k0.x;
    AntiInflexionDeterminants(tau, h);
    var c := Solve(BackwardMatrix(tau, h),
                   k1.y - k0.y - (k1.dy - k0.dy) * tau - h * k0.dy, k1.dy - k0.dy);
    var ytau := k0.y + k0.dy * (h - tau) + c.1 * (h - tau) * (h - tau) / 6.0;
    var dytau := k0.dy + c.1 * (h - tau) / 2.0;
    Knot(k0.x + h - tau, ytau, dytau)
  }

  /** The early-exit test: a zero of the curvature outside the interval. */
  predicate NoInflexion(a2: real, a3: real, h: real)
  {
    a3 != 0.0 && -a2 / (3.0 * a3) <= 0.0 && -a2 / (3.0 * a3) >= h
  }

  /** The knot that addAntiInflexionKnot adds to the interval [k0.x, k1.x], whose cubic
      has coefficients a2 and a3, or None when it adds nothing. */
  function AntiInflexionKnot(k0: Knot, k1: Knot, a2: real, a3: real): (r: Option<Knot>)
  {
    var h := k1.x - k0.x;
    if NoInflexion(a2, a3, h) then None
    else if k1.dy - k0.dy == 0.0 then None
    else if Abs(k0.dy) > Abs(k1.dy) then
      var tau0 := ForwardTau(k0, k1);
      if tau0 <= 0.0 || tau0 >= h then None
      else Some(ForwardKnot(k0, k1, 2.0 * tau0 / 3.0))
    else
      var tau0 := BackwardTau(k0, k1);
      if tau0 <= 0.0 || tau0 >= h then None
      else Some(BackwardKnot(k0, k1, 2.0 * tau0 / 3.0))
  }

  /** On a proper interval the early-exit test `chk <= 0 && chk >= h` can never hold. */
  lemma AntiInflexionGuardNeverExits(k0: Knot, k1: Knot, a2: real, a3: real)
    requires k0.x < k1.x
    ensures !(a3 != 0.0 && -a2 / (3.0 * a3) <= 0.0 && -a2 / (3.0 * a3) >= k1.x - k0.x)
  {
  }

  /** No knot is added when the end slopes agree, or when the curvature zero tau lies
      outside (0, h). */
  lemma AntiInflexionNoOp(k0: Knot, k1: Knot, a2: real, a3: real)
    ensures k1.dy == k0.dy ==> AntiInflexionKnot(k0, k1, a2, a3) == None
    ensures k1.dy != k0.dy && Abs(k0.dy) > Abs(k1.dy) &&
            (ForwardTau(k0, k1) <= 0.0 || ForwardTau(k0, k1) >= k1.x - k0.x) ==>
            AntiInflexionKnot(k0, k1, a2, a3) == None
    ensures k1.dy != k0.dy && Abs(k0.dy) <= Abs(k1.dy) &&
            (BackwardTau(k0, k1) <= 0.0 || BackwardTau(k0, k1) >= k1.x - k0.x) ==>
            AntiInflexionKnot(k0, k1, a2, a3) == None
  {
  }

  /** An added knot sits at x0 + 2 tau / 3 (forward) or x0 + h - 2 tau / 3 (backward),
      strictly inside the interval; conversely a feasible tau always adds a knot. */
  lemma AntiInflexionPosition(k0: Knot, k1: Knot, a2: real, a3: real)
    ensures AntiInflexionKnot(k0, k1, a2, a3).Some? ==>
      k1.dy != k0.dy &&
      k0.x < AntiInflexionKnot(k0, k1, a2, a3).value.x < k1.x &&
      AntiInflexionKnot(k0, k1, a2, a3).value.x ==
        (if Abs(k0.dy) > Abs(k1.dy) then k0.x + 2.0 * ForwardTau(k0, k1) / 3.0
         else k0.x + (k1.x - k0.x) - 2.0 * BackwardTau(k0, k1) / 3.0)
    ensures k0.x < k1.x && k1.dy != k0.dy && Abs(k0.dy) > Abs(k1.dy) &&
            0.0 < ForwardTau(k0, k1) < k1.x - k0.x ==>
            AntiInflexionKnot(k0, k1, a2, a3).Some?
    ensures k0.x < k1.x && k1.dy != k0.dy && Abs(k0.dy) <= Abs(k1.dy) &&
            0.0 < BackwardTau(k0, k1) < k1.x - k0.x ==>
            AntiInflexionKnot(k0, k1, a2, a3).Some?
  {
    var r := AntiInflexionKnot(k0, k1, a2, a3);
    if r.Some? {
      assert k1.dy - k0.dy != 0.0;
    }
  }

  /** Knots after addAntiInflexionKnot on interval idx0 of ks, with coefficients a2, a3. */
  function AntiInflexionStep(ks: seq<Knot>, idx0: nat, a2: real, a3: real): seq<Knot>
    requires idx0 + 1 < |ks|
  {
    match AntiInflexionKnot(ks[idx0], ks[idx0 + 1], a2, a3)
    case None => ks
    case Some(k) => InsertSorted(ks, k)
  }

  /** On strictly increasing knots the step adds at most one knot, right after idx0,
      and keeps the abscissae strictly increasing. */
  lemma AntiInflexionStepShape(ks: seq<Knot>, idx0: nat, a2: real, a3: real)
    requires idx0 + 1 < |ks|
    requires StrictlyIncreasing(ks)
    ensures StrictlyIncreasing(AntiInflexionStep(ks, idx0, a2, a3))
    ensures AntiInflexionKnot(ks[idx0], ks[idx0 + 1], a2, a3).Some? ==>
      AntiInflexionStep(ks, idx0, a2, a3) ==
        ks[..idx0 + 1] + [AntiInflexionKnot(ks[idx0], ks[idx0 + 1], a2, a3).value] + ks[idx0 + 1..]
    ensures AntiInflexionKnot(ks[idx0], ks[idx0 + 1], a2, a3).None? ==>
      AntiInflexionStep(ks, idx0, a2, a3) == ks
  {
    var r := AntiInflexionKnot(ks[idx0], ks[idx0 + 1], a2, a3);
    if r.Some? {
      AntiInflexionPosition(ks[idx0], ks[idx0 + 1], a2, a3);
      InsertKeepsStrict(ks, r.value, idx0 + 1);
    }
  }

  /** addAntiInflexionKnot: mutates the curve by adding the anti-inflexion knot of
      interval idx0, if any. a2 and a3 are the cubic coefficients the spline holds for
      knot idx0. */
  method AddAntiInflexionKnot(curve: Spline, idx0: nat, a2: real, a3: real)
    requires curve.Valid()
    requires idx0 + 1 < |curve.knots|
    modifies curve
    ensures curve.Valid()
    ensures curve.knots == AntiInflexionStep(old(curve.knots), idx0, a2, a3)
  {
    var knot0 := curve.knots[idx0];
    var knot1 := curve.knots[idx0 + 1];
    var h := knot1.x - knot0.x;
    if a3 != 0.0 {
      var chk := -a2 / (3.0 * a3);
      if chk <= 0.0 && chk >= h {
        // no inflexion
        return;
      }
    }
    if knot1.dy - knot0.dy == 0.0 {
      // no change in slope across the interval: nothing to remove
      return;
    }
    if Abs(knot0.dy) > Abs(knot1.dy) {
      // forward direction: curvature at the beginning, c1 = 0
      var tau := ForwardTau(knot0, knot1);
      if tau <= 0.0 || tau >= h {
        return;
      }
      tau := 2.0 * tau / 3.0;
      var k := ForwardKnot(knot0, knot1, tau);
      curve.AddKnot(k.x, k.y, k.dy);
    } else {
      // other direction: curvature at the interval end, c0 = 0
      var tau := BackwardTau(knot0, knot1);
      if tau <= 0.0 || tau >= h {
        return;
      }
      tau := 2.0 * tau / 3.0;
      var k := BackwardKnot(knot0, knot1, tau);
      curve.AddKnot(k.x, k.y, k.dy);
    }
  }

  // ---------------------------------------------------------------------------
  // Force-velocity curve

  datatype ForceVelocityParams = ForceVelocityParams(
    concentricSlopeAtVmax: real,
    concentricSlopeNearVmax: real,
    isometricSlope: real,
    eccentricSlopeAtVmax: real,
    eccentricSlopeNearVmax: real,
    maxEccentricVelocityForceMultiplier: real,
    concentricCurviness: real,
    eccentricCurviness: real)

  /** The cubic coefficients (a2, a3) that the spline derives for interval idx of the
      given knots; CubicHermiteSpline1d computes them, so they are a parameter here. */
  type Coefficients = (seq<Knot>, nat) -> (real, real)

  /** The ten checks of createForceVelocityCurve, in source order. */
  function ForceVelocityChecks(p: ForceVelocityParams): seq<Check>
  {
    [ Check(!(p.concentricSlopeAtVmax < 0.0 || p.concentricSlopeAtVmax >= 1.0),
            "concentricSlopeAtVmax must be in the range [0,1)"),
      Check(!(p.concentricSlopeNearVmax <= p.concentricSlopeAtVmax ||
              p.concentricSlopeNearVmax >= p.isometricSlope),
            "concentricSlopeNearVmax must be > concentricSlopeAtVmax and < isometricSlope"),
      Check(p.isometricSlope > 1.0,
            "isometricSlope must be > 1"),
      Check(!(p.eccentricSlopeNearVmax >= p.isometricSlope ||
              p.eccentricSlopeNearVmax <= p.eccentricSlopeAtVmax),
            "eccentricSlopeNearVmax must be < isometricSlope and > eccentricSlopeAtVmax"),
      Check(p.isometricSlope > p.maxEccentricVelocityForceMultiplier - 1.0,
            "isometricSlope must exceed (maxEccentricVelocityForceMultiplier-1)"),
      Check(p.eccentricSlopeAtVmax >= 0.0,
            "eccentricSlopeAtVmax must be >= 0"),
      Check(p.eccentricSlopeAtVmax < p.maxEccentricVelocityForceMultiplier - 1.0,
            "eccentricSlopeAtVmax must be less than (maxEccentricVelocityForceMultiplier-1)"),
      Check(p.maxEccentricVelocityForceMultiplier > 1.0,
            "maxEccentricVelocityForceMultiplier must be > 1"),
      Check(!(p.concentricCurviness < 0.0 || p.concentricCurviness > 1.0),
            "concentricCurviness must be in the range [0,1]"),
      Check(!(p.eccentricCurviness < 0.0 || p.eccentricCurviness > 1.0),
            "eccentricCurviness must be in the range [0,1]") ]
  }

  ghost predicate ForceVelocityValid(p: ForceVelocityParams)
  {
    && 0.0 <= p.concentricSlopeAtVmax < 1.0
    && p.concentricSlopeAtVmax < p.concentricSlopeNearVmax < p.isometricSlope
    && p.isometricSlope > 1.0
    && p.eccentricSlopeAtVmax < p.eccentricSlopeNearVmax < p.isometricSlope
    && p.isometricSlope > p.maxEccentricVelocityForceMultiplier - 1.0
    && 0.0 <= p.eccentricSlopeAtVmax < p.maxEccentricVelocityForceMultiplier - 1.0
    && p.maxEccentricVelocityForceMultiplier > 1.0
    && 0.0 <= p.concentricCurviness <= 1.0
    && 0.0 <= p.eccentricCurviness <= 1.0
  }

  lemma ForceVelocityChecksPass(p: ForceVelocityParams)
    ensures FirstFailure(ForceVelocityChecks(p)).None? <==> ForceVelocityValid(p)
  {
    if FirstFailure(ForceVelocityChecks(p)).None? {
      ForceVelocityPassingValid(p);
    } else if ForceVelocityValid(p) {
      ForceVelocityValidPassing(p);
    }
  }

  /** Valid parameters pass every check. */
  lemma ForceVelocityValidPassing(p: ForceVelocityParams)
    requires ForceVelocityValid(p)
    ensures forall i :: 0 <= i < |ForceVelocityChecks(p)| ==> ForceVelocityChecks(p)[i].passes
  {
  }

  /** Parameters that pass every check are valid. */
  lemma ForceVelocityPassingValid(p: ForceVelocityParams)
    requires forall i :: 0 <= i < |ForceVelocityChecks(p)| ==> ForceVelocityChecks(p)[i].passes
    ensures ForceVelocityValid(p)
  {
    var cs := ForceVelocityChecks(p);
    assert cs[0].passes && cs[1].passes && cs[2].passes && cs[3].passes && cs[4].passes;
    assert cs[5].passes && cs[6].passes && cs[7].passes && cs[8].passes && cs[9].passes;
  }

  /** Values of the knots near C and near E. */
  function ForceVelocityNearC(p: ForceVelocityParams): real
  {
    var xC, yC, xNearC := -1.0, 0.0, -0.9;
    yC + 0.5 * p.concentricSlopeNearVmax * (xNearC - xC) + 0.5 * p.concentricSlopeAtVmax * (xNearC - xC)
  }

  function ForceVelocityNearE(p: ForceVelocityParams): real
  {
    var xE, yE, xNearE := 1.0, p.maxEccentricVelocityForceMultiplier, 0.9;
    yE + 0.5 * p.eccentricSlopeNearVmax * (xNearE - xE) + 0.5 * p.eccentricSlopeAtVmax * (xNearE - xE)
  }

  /** The five base knots, in order of x (they are added with the 0.9 knot last). */
  function ForceVelocityBaseKnots(p: ForceVelocityParams): seq<Knot>
  {
    [ Knot(-1.0, 0.0, p.concentricSlopeAtVmax),
      Knot(-0.9, ForceVelocityNearC(p), p.concentricSlopeNearVmax),
      Knot(0.0, 1.0, p.isometricSlope),
      Knot(0.9, ForceVelocityNearE(p), p.eccentricSlopeNearVmax),
      Knot(1.0, p.maxEccentricVelocityForceMultiplier, p.eccentricSlopeAtVmax) ]
  }

  /** The knots after the first anti-inflexion call (interval 1). */
  function ForceVelocityAfterFirst(p: ForceVelocityParams, coefficients: Coefficients): seq<Knot>
  {
    var base := ForceVelocityBaseKnots(p);
    var c := coefficients(base, 1);
    AntiInflexionStep(base, 1, c.0, c.1)
  }

  /** The knots of the finished curve: the second anti-inflexion call uses interval 3. */
  function ForceVelocityKnots(p: ForceVelocityParams, coefficients: Coefficients): seq<Knot>
  {
    var ks := ForceVelocityAfterFirst(p, coefficients);
    assert |ks| >= 5;
    var c := coefficients(ks, 3);
    AntiInflexionStep(ks, 3, c.0, c.1)
  }

  /** The near-C and near-E values are 0.05 (dNearC + dC) and yE - 0.05 (dNearE + dE),
      the base knots sit at x = -1, -0.9, 0, 0.9, 1, and both curviness parameters are
      ignored. */
  lemma ForceVelocityBase(p: ForceVelocityParams, cc: real, ec: real)
    ensures ForceVelocityNearC(p) == 0.05 * (p.concentricSlopeNearVmax + p.concentricSlopeAtVmax)
    ensures ForceVelocityNearE(p) ==
      p.maxEccentricVelocityForceMultiplier - 0.05 * (p.eccentricSlopeNearVmax + p.eccentricSlopeAtVmax)
    ensures StrictlyIncreasing(ForceVelocityBaseKnots(p))
    ensures ForceVelocityBaseKnots(p) ==
      ForceVelocityBaseKnots(p.(concentricCurviness := cc, eccentricCurviness := ec))
  {
  }

  /** The finished force-velocity curve has strictly increasing x, with 5, 6 or 7 knots. */
  lemma ForceVelocityShape(p: ForceVelocityParams, coefficients: Coefficients)
    ensures StrictlyIncreasing(ForceVelocityKnots(p, coefficients))
    ensures 5 <= |ForceVelocityKnots(p, coefficients)| <= 7
  {
    var base := ForceVelocityBaseKnots(p);
    var c := coefficients(base, 1);
    AntiInflexionStepShape(base, 1, c.0, c.1);
    var ks := ForceVelocityAfterFirst(p, coefficients);
    var c2 := coefficients(ks, 3);
    AntiInflexionStepShape(ks, 3, c2.0, c2.1);
  }

  /** As written, the second call's interval 3 is [0, 0.9] only when the first call added
      a knot; otherwise it is [0.9, 1]. */
  lemma ForceVelocitySecondIntervalAsWritten(p: ForceVelocityParams, coefficients: Coefficients)
    ensures var ks := ForceVelocityAfterFirst(p, coefficients);
      |ks| >= 5 &&
      if |ks| == 6 then ks[3].x == 0.0 && ks[4].x == 0.9
      else ks[3].x == 0.9 && ks[4].x == 1.0
  {
    var base := ForceVelocityBaseKnots(p);
    var c := coefficients(base, 1);
    AntiInflexionStepShape(base, 1, c.0, c.1);
    var ks := ForceVelocityAfterFirst(p, coefficients);
    var added := AntiInflexionKnot(base[1], base[2], c.0, c.1);
    if added.Some? {
      assert ks == base[..2] + [added.value] + base[2..];
      assert |ks| == 6 && ks[3] == base[2] && ks[4] == base[3];
    } else {
      assert ks == base;
    }
  }

  /** Valid parameters for which the first call adds nothing (tau < 0 on the backward
      branch), whatever the spline's coefficients: the second call then examines
      [0.9, 1] instead of the interval between the ISO knot and the knot near E. */
  lemma ForceVelocityFirstCallNoOp(coefficients: Coefficients)
    ensures var p := ForceVelocityParams(0.0, 1.5, 2.0, 0.1, 0.5, 1.5, 0.5, 0.5);
      ForceVelocityValid(p) &&
      ForceVelocityAfterFirst(p, coefficients) == ForceVelocityBaseKnots(p) &&
      ForceVelocityAfterFirst(p, coefficients)[3].x == 0.9 &&
      ForceVelocityAfterFirst(p, coefficients)[4].x == 1.0
  {
    var p := ForceVelocityParams(0.0, 1.5, 2.0, 0.1, 0.5, 1.5, 0.5, 0.5);
    var base := ForceVelocityBaseKnots(p);
    var c := coefficients(base, 1);
    assert BackwardTau(base[1], base[2]) < 0.0;
    AntiInflexionNoOp(base[1], base[2], c.0, c.1);
  }

  /** The curve the comments describe: the second call examines the interval that starts
      at the ISO knot, at index 3 or 2 depending on whether the first call added a knot. */
  function ForceVelocityKnotsIntended(p: ForceVelocityParams, coefficients: Coefficients): seq<Knot>
  {
    var ks := ForceVelocityAfterFirst(p, coefficients);
    assert |ks| >= 5;
    var idx := |ks| - 3;
    var c := coefficients(ks, idx);
    AntiInflexionStep(ks, idx, c.0, c.1)
  }

  /** In the intended curve the second call always examines [0, 0.9], and the result has
      strictly increasing x. */
  lemma ForceVelocitySecondIntervalIntended(p: ForceVelocityParams, coefficients: Coefficients)
    ensures var ks := ForceVelocityAfterFirst(p, coefficients);
      |ks| >= 5 && ks[|ks| - 3].x == 0.0 && ks[|ks| - 2].x == 0.9
    ensures StrictlyIncreasing(ForceVelocityKnotsIntended(p, coefficients))
  {
    var base := ForceVelocityBaseKnots(p);
    var c := coefficients(base, 1);
    AntiInflexionStepShape(base, 1, c.0, c.1);
    var ks := ForceVelocityAfterFirst(p, coefficients);
    var c2 := coefficients(ks, |ks| - 3);
    AntiInflexionStepShape(ks, |ks| - 3, c2.0, c2.1);
  }

  /** Adding C, near C, ISO, E and near E in source order yields the base knots. */
  lemma ForceVelocityBuild(p: ForceVelocityParams)
    ensures var ks := ForceVelocityBaseKnots(p);
      InsertSorted(InsertSorted(InsertSorted(InsertSorted(InsertSorted([], ks[0]), ks[1]), ks[2]), ks[4]), ks[3]) == ks
  {
    var ks := ForceVelocityBaseKnots(p);
    BuildFourthLast5(ks[0], ks[1], ks[2], ks[3], ks[4]);
  }

  /** createForceVelocityCurve: the first failing check's message, or a fresh curve with
      the base knots and the two anti-inflexion calls at indices 1 and 3, as written. */
  method CreateForceVelocityCurve(p: ForceVelocityParams, coefficients: Coefficients)
    returns (r: Result<Spline, string>)
    ensures r.Failure? <==> FirstFailure(ForceVelocityChecks(p)).Some?
    ensures r.Failure? ==> Some(r.error) == FirstFailure(ForceVelocityChecks(p))
    ensures r.Success? ==>
      ForceVelocityValid(p) && fresh(r.value) && r.value.Valid() &&
      r.value.knots == ForceVelocityKnots(p, coefficients)
  {
    var failure := FirstFailure(ForceVelocityChecks(p));
    if failure.Some? {
      return Failure(failure.value);
    }
    ForceVelocityChecksPass(p);
    ForceVelocityBuild(p);
    var ks := ForceVelocityBaseKnots(p);
    var curve := new Spline();
    curve.AddKnot(ks[0].x, ks[0].y, ks[0].dy);  // start point at C
    curve.AddKnot(ks[1].x, ks[1].y, ks[1].dy);  // point near C
    curve.AddKnot(ks[2].x, ks[2].y, ks[2].dy);  // ISO mid point
    curve.AddKnot(ks[4].x, ks[4].y, ks[4].dy);  // end point E
    curve.AddKnot(ks[3].x, ks[3].y, ks[3].dy);  // point near E
    // extra knot to remove the inflexion between near C and ISO
    var c1 := coefficients(curve.knots, 1);
    AddAntiInflexionKnot(curve, 1, c1.0, c1.1);
    // extra knot meant for the interval between ISO and near E; index 3 is that
    // interval only when the first call added a knot (ForceVelocitySecondIntervalAsWritten)
    ForceVelocitySecondIntervalAsWritten(p, coefficients);
    var c3 := coefficients(curve.knots, 3);
    AddAntiInflexionKnot(curve, 3, c3.0, c3.1);
    return Success(curve);
  }

  // ---------------------------------------------------------------------------
  // The material's curve fields

  /** The four optional curves of AxialMuscleMaterialBase. Each setter stores a copy of
      the given curve, so the material never shares a curve with its caller. */
  class AxialMuscleMaterialBase {
    var activeForceLengthCurve: Spline?
    var passiveForceLengthCurve: Spline?
    var tendonForceLengthCurve: Spline?
    var forceVelocityCurve: Spline?

    constructor ()
      ensures activeForceLengthCurve == null && passiveForceLengthCurve == null
      ensures tendonForceLengthCurve == null && forceVelocityCurve == null
    {
      activeForceLengthCurve := null;
      passiveForceLengthCurve := null;
      tendonForceLengthCurve := null;
      forceVelocityCurve := null;
    }

    method SetActiveForceLengthCurve(curve: Spline?)
      requires curve != null ==> curve.Valid()
      modifies this
      ensures curve == null ==> activeForceLengthCurve == null
      ensures curve != null ==>
        activeForceLengthCurve != null && fresh(activeForceLengthCurve) &&
        activeForceLengthCurve.Valid() && activeForceLengthCurve.knots == curve.knots
      ensures passiveForceLengthCurve == old(passiveForceLengthCurve)
      ensures tendonForceLengthCurve == old(tendonForceLengthCurve)
      ensures forceVelocityCurve == old(forceVelocityCurve)
    {
      if curve != null {
        activeForceLengthCurve := new Spline.Copy(curve);
      } else {
        activeForceLengthCurve := null;
      }
    }

    method SetPassiveForceLengthCurve(curve: Spline?)
      requires curve != null ==> curve.Valid()
      modifies this
      ensures curve == null ==> passiveForceLengthCurve == null
      ensures curve != null ==>
        passiveForceLengthCurve != null && fresh(passiveForceLengthCurve) &&
        passiveForceLengthCurve.Valid() && passiveForceLengthCurve.knots == curve.knots
      ensures activeForceLengthCurve == old(activeForceLengthCurve)
      ensures tendonForceLengthCurve == old(tendonForceLengthCurve)
      ensures forceVelocityCurve == old(forceVelocityCurve)
    {
      if curve != null {
        passiveForceLengthCurve := new Spline.Copy(curve);
      } else {
        passiveForceLengthCurve := null;
      }
    }

    method SetTendonForceLengthCurve(curve: Spline?)
      requires curve != null ==> curve.Valid()
      modifies this
      ensures curve == null ==> tendonForceLengthCurve == null
      ensures curve != null ==>
        tendonForceLengthCurve != null && fresh(tendonForceLengthCurve) &&
        tendonForceLengthCurve.Valid() && tendonForceLengthCurve.knots == curve.knots
      ensures activeForceLengthCurve == old(activeForceLengthCurve)
      ensures passiveForceLengthCurve == old(passiveForceLengthCurve)
      ensures forceVelocityCurve == old(forceVelocityCurve)
    {
      if curve != null {
        tendonForceLengthCurve := new Spline.Copy(curve);
      } else {
        tendonForceLengthCurve := null;
      }
    }

    method SetForceVelocityCurve(curve: Spline?)
      requires curve != null ==> curve.Valid()
      modifies this
      ensures curve == null ==> forceVelocityCurve == null
      ensures curve != null ==>
        forceVelocityCurve != null && fresh(forceVelocityCurve) &&
        forceVelocityCurve.Valid() && forceVelocityCurve.knots == curve.knots
      ensures activeForceLengthCurve == old(activeForceLengthCurve)
      ensures passiveForceLengthCurve == old(passiveForceLengthCurve)
      ensures tendonForceLengthCurve == old(tendonForceLengthCurve)
    {
      if curve != null {
        forceVelocityCurve := new Spline.Copy(curve);
      } else {
        forceVelocityCurve := null;
      }
    }
  }
}
