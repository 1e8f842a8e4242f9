/**
 * The Ogden hyperelastic material: a store of six (mu, alpha) term parameters
 * with their property modes and optional scalar fields, the unit-scaling
 * operations, and the discrete control of the deviatoric stress and tangent
 * computation: which terms are active, which of the three stretch
 * multiplicity cases runs, the index chosen in the two-equal case and the
 * divisors Di. Doubles are modelled as reals; the tensor algebra, the
 * eigen-decomposition, square roots and powers are not part of this model
 * (powers enter as a function parameter).
 */
module Ogden {
  import opened Wrappers
  import opened JavaMath

  /** Number of Ogden terms. */
  const NMAX: nat := 6

  /** The mode of an inheritable property. */
  datatype PropertyMode = Explicit | Inherited | Inactive

  /** A point at which a scalar field is evaluated. */
  type FieldPoint

  /** A scalar field component, as far as the material uses it: one value per point. */
  type ScalarField = FieldPoint -> real

  /**
   * The property-propagation service: given the property name, its new value
   * and its current mode, it returns the mode the property has afterwards.
   * What it does to other components is not part of this model.
   */
  type Propagator = (string, real, PropertyMode) -> PropertyMode

  /** Math.pow, left uninterpreted. */
  type Power = (real, real) -> real

  const DEFAULT_MU: seq<real> := [300000.0, 0.0, 0.0, 0.0, 0.0, 0.0]
  const DEFAULT_ALPHA: seq<real> := [2.0, 2.0, 2.0, 2.0, 2.0, 2.0]
  const INHERITED_MODES: seq<PropertyMode> := [Inherited, Inherited, Inherited, Inherited, Inherited, Inherited]
  const NO_FIELDS: seq<Option<ScalarField>> := [None, None, None, None, None, None]

  /**
   * For setter n (1-based), the mode field it updates and the property name it
   * propagates under. setMu3, setMu4 and setMu5 all update the Mu2 mode, as
   * written; every alpha setter updates its own.
   */
  const MU_MODE_SLOTS: seq<nat> := [1, 2, 2, 2, 2, 6]
  const ALPHA_MODE_SLOTS: seq<nat> := [1, 2, 3, 4, 5, 6]

  /** The property name "Mu3", "Alpha5", ... */
  function PropertyName(prefix: string, slot: nat): string
    requires slot <= 9
  {
    prefix + ["0123456789"[slot]]
  }

  /** The modes after setter n has propagated value v. */
  function AfterSet(modes: seq<PropertyMode>, prefix: string, slots: seq<nat>, n: nat, v: real, propagate: Propagator): seq<PropertyMode>
    requires |modes| == NMAX && |slots| == NMAX && 1 <= n <= NMAX
    requires forall m :: 0 <= m < NMAX ==> 1 <= slots[m] <= NMAX
  {
    var slot := slots[n - 1];
    modes[slot - 1 := propagate(PropertyName(prefix, slot), v, modes[slot - 1])]
  }

  /** The modes after setters 1..k have been called, in order, with vals[0..k]. */
  function AfterSets(modes: seq<PropertyMode>, prefix: string, slots: seq<nat>, vals: seq<real>, k: nat, propagate: Propagator): (r: seq<PropertyMode>)
    requires |modes| == NMAX && |slots| == NMAX && |vals| == NMAX && k <= NMAX
    requires forall m :: 0 <= m < NMAX ==> 1 <= slots[m] <= NMAX
    ensures |r| == NMAX
  {
    if k == 0 then modes
    else AfterSet(AfterSets(modes, prefix, slots, vals, k - 1, propagate), prefix, slots, k, vals[k - 1], propagate)
  }

  /**
   * setMu3, setMu4 and setMu5 leave their own mode untouched and propagate
   * under "Mu2" into the Mu2 mode; the other setters use their own.
   */
  lemma MuSetterModeTarget(modes: seq<PropertyMode>, n: nat, v: real, propagate: Propagator)
    requires |modes| == NMAX && 1 <= n <= NMAX
    ensures 3 <= n <= 5 ==>
      AfterSet(modes, "Mu", MU_MODE_SLOTS, n, v, propagate)[n - 1] == modes[n - 1] &&
      AfterSet(modes, "Mu", MU_MODE_SLOTS, n, v, propagate)[1] == propagate("Mu2", v, modes[1])
    ensures n !in {3, 4, 5} ==>
      AfterSet(modes, "Mu", MU_MODE_SLOTS, n, v, propagate)[n - 1] == propagate(PropertyName("Mu", n), v, modes[n - 1])
    ensures forall m :: 0 <= m < NMAX && m != MU_MODE_SLOTS[n - 1] - 1 ==>
      AfterSet(modes, "Mu", MU_MODE_SLOTS, n, v, propagate)[m] == modes[m]
  {
    assert PropertyName("Mu", 2) == "Mu2";
  }

  /** Every alpha setter propagates under its own name into its own mode. */
  lemma AlphaSetterModeTarget(modes: seq<PropertyMode>, n: nat, v: real, propagate: Propagator)
    requires |modes| == NMAX && 1 <= n <= NMAX
    ensures AfterSet(modes, "Alpha", ALPHA_MODE_SLOTS, n, v, propagate)[n - 1] == propagate(PropertyName("Alpha", n), v, modes[n - 1])
    ensures forall m :: 0 <= m < NMAX && m != n - 1 ==> AfterSet(modes, "Alpha", ALPHA_MODE_SLOTS, n, v, propagate)[m] == modes[m]
  {
  }

  /** getMuN(dp)/getAlphaN(dp): the field's value when a field is set, the stored constant otherwise. */
  function FieldValue(field: Option<ScalarField>, stored: real, dp: FieldPoint): real
  {
    match field
    case None => stored
    case Some(f) => f(dp)
  }

  /** Every entry divided by s. */
  function DividedBy(xs: seq<real>, s: real): (r: seq<real>)
    requires s != 0.0
    ensures |r| == |xs|
  {
    seq(|xs|, i requires 0 <= i < |xs| => xs[i] / s)
  }

  /** Every entry multiplied by s. */
  function MultipliedBy(xs: seq<real>, s: real): (r: seq<real>)
    ensures |r| == |xs|
  {
    seq(|xs|, i requires 0 <= i < |xs| => xs[i] * s)
  }

  /** Scaling distance and then mass by the same factor, in either order, restores the values. */
  lemma ScaleRoundTrip(xs: seq<real>, s: real)
    requires s != 0.0
    ensures MultipliedBy(DividedBy(xs, s), s) == xs
    ensures DividedBy(MultipliedBy(xs, s), s) == xs
  {
    forall i | 0 <= i < |xs|
      ensures MultipliedBy(DividedBy(xs, s), s)[i] == xs[i] && DividedBy(MultipliedBy(xs, s), s)[i] == xs[i]
    {
      DivideMultiply(xs[i], s);
    }
  }

  lemma DivideMultiply(x: real, s: real)
    requires s != 0.0
    ensures (x / s) * s == x && (x * s) / s == x
  {
  }

  class OgdenMaterial {
    var mu: array<real>
    var alpha: array<real>
    var muMode: seq<PropertyMode>
    var alphaMode: seq<PropertyMode>
    var muField: seq<Option<ScalarField>>
    var alphaField: seq<Option<ScalarField>>

    ghost predicate Valid()
      reads this
    {
      mu.Length == NMAX && alpha.Length == NMAX && mu != alpha &&
      |muMode| == NMAX && |alphaMode| == NMAX &&
      |muField| == NMAX && |alphaField| == NMAX
    }

    /** A material with the default parameters, every mode Inherited and no fields. */
    constructor ()
      ensures Valid() && fresh(mu) && fresh(alpha)
      ensures mu[..] == DEFAULT_MU && alpha[..] == DEFAULT_ALPHA
      ensures muMode == INHERITED_MODES && alphaMode == INHERITED_MODES
      ensures muField == NO_FIELDS && alphaField == NO_FIELDS
    {
      mu := new real[NMAX](i requires 0 <= i < NMAX => DEFAULT_MU[i]);
      alpha := new real[NMAX](i requires 0 <= i < NMAX => DEFAULT_ALPHA[i]);
      muMode := INHERITED_MODES;
      alphaMode := INHERITED_MODES;
      muField := NO_FIELDS;
      alphaField := NO_FIELDS;
      new;
      assert mu[..] == DEFAULT_MU;
      assert alpha[..] == DEFAULT_ALPHA;
    }

    /**
     * The constructor taking mu and alpha arrays: the default material on
     * which the twelve setters are called in order, mu first.
     */
    constructor WithParameters(mus: seq<real>, alphas: seq<real>, propagate: Propagator)
      requires |mus| >= NMAX && |alphas| >= NMAX
      ensures Valid() && fresh(mu) && fresh(alpha)
      ensures mu[..] == mus[..NMAX] && alpha[..] == alphas[..NMAX]
      ensures muMode == AfterSets(INHERITED_MODES, "Mu", MU_MODE_SLOTS, mus[..NMAX], NMAX, propagate)
      ensures alphaMode == AfterSets(INHERITED_MODES, "Alpha", ALPHA_MODE_SLOTS, alphas[..NMAX], NMAX, propagate)
      ensures muField == NO_FIELDS && alphaField == NO_FIELDS
    {
      mu := new real[NMAX](i requires 0 <= i < NMAX => DEFAULT_MU[i]);
      alpha := new real[NMAX](i requires 0 <= i < NMAX => DEFAULT_ALPHA[i]);
      muMode := INHERITED_MODES;
      alphaMode := INHERITED_MODES;
      muField := NO_FIELDS;
      alphaField := NO_FIELDS;
      new;
      SetMus(mus, propagate);
      SetAlphas(alphas, propagate);
    }

    /** setMu1(mus[0]) … setMu6(mus[5]), in that order. */
    method SetMus(mus: seq<real>, propagate: Propagator)
      requires Valid() && |mus| >= NMAX
      modifies this, mu
      ensures Valid() && mu == old(mu) && alpha == old(alpha)
      ensures mu[..] == mus[..NMAX]
      ensures muMode == AfterSets(old(muMode), "Mu", MU_MODE_SLOTS, mus[..NMAX], NMAX, propagate)
      ensures alpha[..] == old(alpha[..]) && alphaMode == old(alphaMode)
      ensures muField == old(muField) && alphaField == old(alphaField)
    {
      var n := 1;
      while n <= NMAX
        invariant 1 <= n <= NMAX + 1 && Valid() && mu == old(mu) && alpha == old(alpha)
        invariant forall m :: 0 <= m < n - 1 ==> mu[m] == mus[m]
        invariant muMode == AfterSets(old(muMode), "Mu", MU_MODE_SLOTS, mus[..NMAX], n - 1, propagate)
        invariant alpha[..] == old(alpha[..]) && alphaMode == old(alphaMode)
        invariant muField == old(muField) && alphaField == old(alphaField)
      {
        SetMu(n, mus[n - 1], propagate);
        n := n + 1;
      }
      assert mu[..] == mus[..NMAX];
    }

    /** setAlpha1(alphas[0]) … setAlpha6(alphas[5]), in that order. */
    method SetAlphas(alphas: seq<real>, propagate: Propagator)
      requires Valid() && |alphas| >= NMAX
      modifies this, alpha
      ensures Valid() && mu == old(mu) && alpha == old(alpha)
      ensures alpha[..] == alphas[..NMAX]
      ensures alphaMode == AfterSets(old(alphaMode), "Alpha", ALPHA_MODE_SLOTS, alphas[..NMAX], NMAX, propagate)
      ensures mu[..] == old(mu[..]) && muMode == old(muMode)
      ensures muField == old(muField) && alphaField == old(alphaField)
    {
      var n := 1;
      while n <= NMAX
        invariant 1 <= n <= NMAX + 1 && Valid() && mu == old(mu) && alpha == old(alpha)
        invariant forall m :: 0 <= m < n - 1 ==> alpha[m] == alphas[m]
        invariant alphaMode == AfterSets(old(alphaMode), "Alpha", ALPHA_MODE_SLOTS, alphas[..NMAX], n - 1, propagate)
        invariant mu[..] == old(mu[..]) && muMode == old(muMode)
        invariant muField == old(muField) && alphaField == old(alphaField)
      {
        SetAlpha(n, alphas[n - 1], propagate);
        n := n + 1;
      }
      assert alpha[..] == alphas[..NMAX];
    }

    /** setMuN(v): stores v in slot n and propagates it into the mode MU_MODE_SLOTS names. */
    method SetMu(n: nat, v: real, propagate: Propagator)
      requires Valid() && 1 <= n <= NMAX
      modifies this, mu
      ensures Valid() && mu == old(mu) && alpha == old(alpha)
      ensures mu[..] == old(mu[..])[n - 1 := v]
      ensures muMode == AfterSet(old(muMode), "Mu", MU_MODE_SLOTS, n, v, propagate)
      ensures alpha[..] == old(alpha[..]) && alphaMode == old(alphaMode)
      ensures muField == old(muField) && alphaField == old(alphaField)
      ensures forall dp :: muField[n - 1].None? ==> GetMu(n, dp) == v
    {
      mu[n - 1] := v;
      var slot := MU_MODE_SLOTS[n - 1];
      muMode := muMode[slot - 1 := propagate(PropertyName("Mu", slot), mu[n - 1], muMode[slot - 1])];
    }

    /** setAlphaN(v): stores v in slot n and propagates it into the slot's own mode. */
    method SetAlpha(n: nat, v: real, propagate: Propagator)
      requires Valid() && 1 <= n <= NMAX
      modifies this, alpha
      ensures Valid() && mu == old(mu) && alpha == old(alpha)
      ensures alpha[..] == old(alpha[..])[n - 1 := v]
      ensures alphaMode == AfterSet(old(alphaMode), "Alpha", ALPHA_MODE_SLOTS, n, v, propagate)
      ensures mu[..] == old(mu[..]) && muMode == old(muMode)
      ensures muField == old(muField) && alphaField == old(alphaField)
      ensures forall dp :: alphaField[n - 1].None? ==> GetAlpha(n, dp) == v
    {
      alpha[n - 1] := v;
      var slot := ALPHA_MODE_SLOTS[n - 1];
      alphaMode := alphaMode[slot - 1 := propagate(PropertyName("Alpha", slot), alpha[n - 1], alphaMode[slot - 1])];
    }

    /** setMuNField(f): a set field overrides the stored mu at every point; null restores it. */
    method SetMuField(n: nat, f: Option<ScalarField>)
      requires Valid() && 1 <= n <= NMAX
      modifies this
      ensures Valid() && mu == old(mu) && alpha == old(alpha)
      ensures muField == old(muField)[n - 1 := f]
      ensures muMode == old(muMode) && alphaMode == old(alphaMode) && alphaField == old(alphaField)
      ensures forall dp :: GetMu(n, dp) == if f.Some? then f.value(dp) else mu[n - 1]
    {
      muField := muField[n - 1 := f];
    }

    /** setAlphaNField(f): a set field overrides the stored alpha at every point; null restores it. */
    method SetAlphaField(n: nat, f: Option<ScalarField>)
      requires Valid() && 1 <= n <= NMAX
      modifies this
      ensures Valid() && mu == old(mu) && alpha == old(alpha)
      ensures alphaField == old(alphaField)[n - 1 := f]
      ensures muMode == old(muMode) && alphaMode == old(alphaMode) && muField == old(muField)
      ensures forall dp :: GetAlpha(n, dp) == if f.Some? then f.value(dp) else alpha[n - 1]
    {
      alphaField := alphaField[n - 1 := f];
    }

    /** getMuN(dp): the bound field's value at the point, otherwise the stored mu. */
    function GetMu(n: nat, dp: FieldPoint): (r: real)
      reads this, mu
      requires Valid() && 1 <= n <= NMAX
      ensures muField[n - 1].None? ==> r == mu[n - 1]
      ensures muField[n - 1].Some? ==> r == muField[n - 1].value(dp)
    {
      FieldValue(muField[n - 1], mu[n - 1], dp)
    }

    /** getAlphaN(dp): the bound field's value at the point, otherwise the stored alpha. */
    function GetAlpha(n: nat, dp: FieldPoint): (r: real)
      reads this, alpha
      requires Valid() && 1 <= n <= NMAX
      ensures alphaField[n - 1].None? ==> r == alpha[n - 1]
      ensures alphaField[n - 1].Some? ==> r == alphaField[n - 1].value(dp)
    {
      FieldValue(alphaField[n - 1], alpha[n - 1], dp)
    }

    /** The six mu values the stress computation reads at a point. */
    function MusAt(dp: FieldPoint): (r: seq<real>)
      reads this, mu
      requires Valid()
      ensures |r| == NMAX
      ensures forall n :: 0 <= n < NMAX ==> r[n] == if muField[n].Some? then muField[n].value(dp) else mu[n]
    {
      [GetMu(1, dp), GetMu(2, dp), GetMu(3, dp), GetMu(4, dp), GetMu(5, dp), GetMu(6, dp)]
    }

    /** The six alpha values the stress computation reads at a point. */
    function AlphasAt(dp: FieldPoint): (r: seq<real>)
      reads this, alpha
      requires Valid()
      ensures |r| == NMAX
      ensures forall n :: 0 <= n < NMAX ==> r[n] == if alphaField[n].Some? then alphaField[n].value(dp) else alpha[n]
    {
      [GetAlpha(1, dp), GetAlpha(2, dp), GetAlpha(3, dp), GetAlpha(4, dp), GetAlpha(5, dp), GetAlpha(6, dp)]
    }

    /**
     * scaleDistance(s): for s != 1 every mu is divided by s through its setter;
     * alpha is unchanged. The superclass part is not part of this model, and
     * s == 0 (an IEEE division by zero) is excluded.
     */
    method ScaleDistance(s: real, propagate: Propagator)
      requires Valid() && s != 0.0
      modifies this, mu
      ensures Valid() && mu == old(mu) && alpha == old(alpha)
      ensures s == 1.0 ==> mu[..] == old(mu[..]) && muMode == old(muMode)
      ensures s != 1.0 ==> mu[..] == DividedBy(old(mu[..]), s)
      ensures s != 1.0 ==> muMode == AfterSets(old(muMode), "Mu", MU_MODE_SLOTS, DividedBy(old(mu[..]), s), NMAX, propagate)
      ensures alpha[..] == old(alpha[..]) && alphaMode == old(alphaMode)
      ensures muField == old(muField) && alphaField == old(alphaField)
    {
      if s != 1.0 {
        SetMus(DividedBy(mu[..], s), propagate);
      }
    }

    /**
     * scaleMass(s): for s != 1 every mu is multiplied by s through its setter;
     * alpha is unchanged. The superclass part is not part of this model.
     */
    method ScaleMass(s: real, propagate: Propagator)
      requires Valid()
      modifies this, mu
      ensures Valid() && mu == old(mu) && alpha == old(alpha)
      ensures s == 1.0 ==> mu[..] == old(mu[..]) && muMode == old(muMode)
      ensures s != 1.0 ==> mu[..] == MultipliedBy(old(mu[..]), s)
      ensures s != 1.0 ==> muMode == AfterSets(old(muMode), "Mu", MU_MODE_SLOTS, MultipliedBy(old(mu[..]), s), NMAX, propagate)
      ensures alpha[..] == old(alpha[..]) && alphaMode == old(alphaMode)
      ensures muField == old(muField) && alphaField == old(alphaField)
    {
      if s != 1.0 {
        SetMus(MultipliedBy(mu[..], s), propagate);
      }
    }
  }

  // ---------------------------------------------------------------------------
  // Term accumulation
  // ---------------------------------------------------------------------------

  /** Term n is active when its mu is nonzero; every accumulation skips the others. */
  predicate Active(mu: seq<real>, n: nat)
    requires n < |mu|
  {
    mu[n] != 0.0
  }

  /**
   * The sum over the active terms among the first k of w[n] * xs[n]: the shape
   * of every accumulation over the six terms.
   */
  function ActiveSum(mu: seq<real>, w: seq<real>, xs: seq<real>, k: nat): real
    requires k <= |mu| && k <= |w| && k <= |xs|
  {
    if k == 0 then 0.0
    else ActiveSum(mu, w, xs, k - 1) + (if Active(mu, k - 1) then w[k - 1] * xs[k - 1] else 0.0)
  }

  /** Weights and values of inactive terms do not affect an accumulation. */
  lemma {:induction false} ActiveSumIgnoresInactive(mu: seq<real>, w1: seq<real>, xs1: seq<real>, w2: seq<real>, xs2: seq<real>, k: nat)
    requires k <= |mu| && k <= |w1| && k <= |xs1| && k <= |w2| && k <= |xs2|
    requires forall n :: 0 <= n < k && Active(mu, n) ==> w1[n] == w2[n] && xs1[n] == xs2[n]
    ensures ActiveSum(mu, w1, xs1, k) == ActiveSum(mu, w2, xs2, k)
  {
    if k > 0 {
      ActiveSumIgnoresInactive(mu, w1, xs1, w2, xs2, k - 1);
    }
  }

  /** With a single active term the accumulation is that term alone. */
  lemma {:induction false} ActiveSumSingle(mu: seq<real>, w: seq<real>, xs: seq<real>, m: nat, k: nat)
    requires k <= |mu| && k <= |w| && k <= |xs|
    requires forall n :: 0 <= n < k && n != m ==> !Active(mu, n)
    ensures ActiveSum(mu, w, xs, k) == if m < k && Active(mu, m) then w[m] * xs[m] else 0.0
  {
    if k > 0 {
      ActiveSumSingle(mu, w, xs, m, k - 1);
    }
  }

  /** The accumulation loop: for each term, if mu[n] != 0, add w[n] * xs[n]. */
  method AccumulateActive(mu: seq<real>, w: seq<real>, xs: seq<real>) returns (acc: real)
    requires |mu| == NMAX && |w| == NMAX && |xs| == NMAX
    ensures acc == ActiveSum(mu, w, xs, NMAX)
  {
    acc := 0.0;
    for n := 0 to NMAX
      invariant acc == ActiveSum(mu, w, xs, n)
    {
      if mu[n] != 0.0 {
        acc := acc + w[n] * xs[n];
      }
    }
  }

  /** Every active term has a nonzero alpha (and so the divisions by alpha are defined). */
  predicate ActiveAlphaNonzero(mu: seq<real>, alpha: seq<real>)
    requires |mu| == NMAX && |alpha| == NMAX
  {
    forall n :: 0 <= n < NMAX && Active(mu, n) ==> alpha[n] != 0.0
  }

  /** The parameter vectors agree on every active term. */
  predicate AgreeOnActive(mu: seq<real>, a1: seq<real>, a2: seq<real>)
    requires |mu| == NMAX && |a1| == NMAX && |a2| == NMAX
  {
    forall n :: 0 <= n < NMAX && Active(mu, n) ==> a1[n] == a2[n]
  }

  /** mu[n] / alpha[n] / J on active terms (the principal stress weights). */
  function StressWeights(mu: seq<real>, alpha: seq<real>, J: real): (w: seq<real>)
    requires |mu| == NMAX && |alpha| == NMAX && ActiveAlphaNonzero(mu, alpha) && J != 0.0
    ensures |w| == NMAX
  {
    seq(NMAX, n requires 0 <= n < NMAX => if Active(mu, n) then mu[n] / alpha[n] / J else 0.0)
  }

  /** mu[n] / alpha[n] on active terms (the beta weights). */
  function BetaWeights(mu: seq<real>, alpha: seq<real>): (w: seq<real>)
    requires |mu| == NMAX && |alpha| == NMAX && ActiveAlphaNonzero(mu, alpha)
    ensures |w| == NMAX
  {
    seq(NMAX, n requires 0 <= n < NMAX => if Active(mu, n) then mu[n] / alpha[n] else 0.0)
  }

  /** Row i of the power table: pow(x, alpha[n]) for an active term, 0 (the array's initial value) otherwise. */
  function PowRow(mu: seq<real>, alpha: seq<real>, x: real, pow: Power): (r: seq<real>)
    requires |mu| == NMAX && |alpha| == NMAX
    ensures |r| == NMAX
  {
    seq(NMAX, n requires 0 <= n < NMAX => if Active(mu, n) then pow(x, alpha[n]) else 0.0)
  }

  /** A 3 x NMAX table, the shape of the deviatoric power table. */
  predicate IsTable(P: seq<seq<real>>)
  {
    |P| == 3 && forall i :: 0 <= i < 3 ==> |P[i]| == NMAX
  }

  /** The deviatoric power table for deviatoric principal stretches lamDev. */
  function PowTableOf(mu: seq<real>, alpha: seq<real>, lamDev: seq<real>, pow: Power): (P: seq<seq<real>>)
    requires |mu| == NMAX && |alpha| == NMAX && |lamDev| == 3
    ensures IsTable(P)
  {
    [PowRow(mu, alpha, lamDev[0], pow), PowRow(mu, alpha, lamDev[1], pow), PowRow(mu, alpha, lamDev[2], pow)]
  }

  /** The deviatoric principal stresses before rotation: sum of mu/alpha/J * lamDev_i^alpha over active terms. */
  function PrincipalStressesOf(mu: seq<real>, alpha: seq<real>, lamDev: seq<real>, J: real, pow: Power): (sigma: seq<real>)
    requires |mu| == NMAX && |alpha| == NMAX && |lamDev| == 3 && ActiveAlphaNonzero(mu, alpha) && J != 0.0
    ensures |sigma| == 3
  {
    seq(3, i requires 0 <= i < 3 => ActiveSum(mu, StressWeights(mu, alpha, J), PowRow(mu, alpha, lamDev[i], pow), NMAX))
  }

  /** The principal stress loop: for each direction, accumulate the active terms. */
  method PrincipalStresses(mu: seq<real>, alpha: seq<real>, lamDev: seq<real>, J: real, pow: Power) returns (sigma: seq<real>)
    requires |mu| == NMAX && |alpha| == NMAX && |lamDev| == 3 && ActiveAlphaNonzero(mu, alpha) && J != 0.0
    ensures sigma == PrincipalStressesOf(mu, alpha, lamDev, J, pow)
  {
    sigma := [];
    for i := 0 to 3
      invariant sigma == PrincipalStressesOf(mu, alpha, lamDev, J, pow)[..i]
    {
      var s := AccumulateActive(mu, StressWeights(mu, alpha, J), PowRow(mu, alpha, lamDev[i], pow));
      sigma := sigma + [s];
    }
  }

  /** The power-table loop: a zero-filled 3 x NMAX table whose active entries receive pow(lamDev[i], alpha[n]). */
  method DevPowTable(mu: seq<real>, alpha: seq<real>, lamDev: seq<real>, pow: Power) returns (P: seq<seq<real>>)
    requires |mu| == NMAX && |alpha| == NMAX && |lamDev| == 3
    ensures P == PowTableOf(mu, alpha, lamDev, pow)
  {
    P := [];
    for i := 0 to 3
      invariant P == PowTableOf(mu, alpha, lamDev, pow)[..i]
    {
      var row: seq<real> := [0.0, 0.0, 0.0, 0.0, 0.0, 0.0];
      for n := 0 to NMAX
        invariant |row| == NMAX
        invariant forall m :: 0 <= m < NMAX ==> row[m] == if m < n && Active(mu, m) then pow(lamDev[i], alpha[m]) else 0.0
      {
        if mu[n] != 0.0 {
          row := row[n := pow(lamDev[i], alpha[n])];
        }
      }
      assert row == PowRow(mu, alpha, lamDev[i], pow);
      P := P + [row];
    }
  }

  /** Inactive alphas do not affect the principal stresses. */
  lemma StressesIgnoreInactiveAlpha(mu: seq<real>, alpha1: seq<real>, alpha2: seq<real>, lamDev: seq<real>, J: real, pow: Power)
    requires |mu| == NMAX && |alpha1| == NMAX && |alpha2| == NMAX && |lamDev| == 3 && J != 0.0
    requires ActiveAlphaNonzero(mu, alpha1) && AgreeOnActive(mu, alpha1, alpha2)
    ensures ActiveAlphaNonzero(mu, alpha2)
    ensures PrincipalStressesOf(mu, alpha1, lamDev, J, pow) == PrincipalStressesOf(mu, alpha2, lamDev, J, pow)
  {
    forall i | 0 <= i < 3
      ensures PrincipalStressesOf(mu, alpha1, lamDev, J, pow)[i] == PrincipalStressesOf(mu, alpha2, lamDev, J, pow)[i]
    {
      ActiveSumIgnoresInactive(mu, StressWeights(mu, alpha1, J), PowRow(mu, alpha1, lamDev[i], pow),
                               StressWeights(mu, alpha2, J), PowRow(mu, alpha2, lamDev[i], pow), NMAX);
    }
  }

  /** Inactive alphas do not affect the power table, whose inactive columns are zero. */
  lemma PowTableIgnoresInactiveAlpha(mu: seq<real>, alpha1: seq<real>, alpha2: seq<real>, lamDev: seq<real>, pow: Power)
    requires |mu| == NMAX && |alpha1| == NMAX && |alpha2| == NMAX && |lamDev| == 3
    requires AgreeOnActive(mu, alpha1, alpha2)
    ensures PowTableOf(mu, alpha1, lamDev, pow) == PowTableOf(mu, alpha2, lamDev, pow)
    ensures forall i, n :: 0 <= i < 3 && 0 <= n < NMAX && !Active(mu, n) ==> PowTableOf(mu, alpha1, lamDev, pow)[i][n] == 0.0
  {
    assert PowRow(mu, alpha1, lamDev[0], pow) == PowRow(mu, alpha2, lamDev[0], pow);
    assert PowRow(mu, alpha1, lamDev[1], pow) == PowRow(mu, alpha2, lamDev[1], pow);
    assert PowRow(mu, alpha1, lamDev[2], pow) == PowRow(mu, alpha2, lamDev[2], pow);
  }

  // ---------------------------------------------------------------------------
  // Multiplicity cases of the tangent
  // ---------------------------------------------------------------------------

  /** Tolerance on differences of squared principal stretches (smallNum). */
  const SMALL_NUM: real := 0.00000001

  datatype Multiplicity = Triple | Distinct | Double

  /** The branch taken for squared principal stretches lam2 = (l0, l1, l2). */
  function Classify(lam2: seq<real>): Multiplicity
    requires |lam2| == 3
  {
    if Abs(lam2[0] - lam2[1]) < SMALL_NUM && Abs(lam2[0] - lam2[2]) < SMALL_NUM then Triple
    else if Abs(lam2[0] - lam2[1]) >= SMALL_NUM && Abs(lam2[0] - lam2[2]) >= SMALL_NUM
         && Abs(lam2[1] - lam2[2]) >= SMALL_NUM then Distinct
    else Double
  }

  /**
   * What the branch tests imply beyond their text: the two-equal branch has
   * a close pair and a pair at least the tolerance apart, and in the
   * all-equal branch l1 and l2, which the tests never compare, are within
   * twice the tolerance.
   */
  lemma ClassifyBounds(lam2: seq<real>)
    requires |lam2| == 3
    ensures Classify(lam2) == Double ==>
      (Abs(lam2[0] - lam2[1]) < SMALL_NUM || Abs(lam2[0] - lam2[2]) < SMALL_NUM || Abs(lam2[1] - lam2[2]) < SMALL_NUM) &&
      (Abs(lam2[0] - lam2[1]) >= SMALL_NUM || Abs(lam2[0] - lam2[2]) >= SMALL_NUM || Abs(lam2[1] - lam2[2]) >= SMALL_NUM)
    ensures Classify(lam2) == Triple ==> Abs(lam2[1] - lam2[2]) < 2.0 * SMALL_NUM
  {
  }

  /** The all-equal branch is taken for (1, 1 + 0.9 eps, 1 - 0.9 eps) although l1 and l2 are more than eps apart. */
  lemma TripleWithDistantOuterPair()
    ensures Classify([1.0, 1.0 + 0.9 * SMALL_NUM, 1.0 - 0.9 * SMALL_NUM]) == Triple
    ensures Abs((1.0 + 0.9 * SMALL_NUM) - (1.0 - 0.9 * SMALL_NUM)) >= SMALL_NUM
  {
  }

  /** The cyclic successor (i + 1) % 3. */
  function Next(i: nat): nat
  {
    (i + 1) % 3
  }

  /** The indices i, (i+1)%3, ((i+1)%3+1)%3 are 0, 1 and 2 in some order. */
  lemma CyclicIndices(i: nat)
    requires i < 3
    ensures {i, Next(i), Next(Next(i))} == {0, 1, 2}
    ensures i != Next(i) && Next(i) != Next(Next(i)) && i != Next(Next(i))
  {
  }

  /** Di = (li - lj)(li - lk) with j, k the cyclic successors of i. */
  function D(lam2: seq<real>, i: nat): real
    requires |lam2| == 3 && i < 3
  {
    var j := Next(i);
    var k := Next(j);
    (lam2[i] - lam2[j]) * (lam2[i] - lam2[k])
  }

  lemma ZeroProduct(a: real, b: real)
    ensures a * b == 0.0 <==> a == 0.0 || b == 0.0
  {
  }

  /** In the all-distinct branch every Di is nonzero, so each 1/Di is defined. */
  lemma DistinctNonsingular(lam2: seq<real>)
    requires |lam2| == 3 && Classify(lam2) == Distinct
    ensures forall i :: 0 <= i < 3 ==> D(lam2, i) != 0.0
  {
    forall i | 0 <= i < 3
      ensures D(lam2, i) != 0.0
    {
      ZeroProduct(lam2[i] - lam2[Next(i)], lam2[i] - lam2[Next(Next(i))]);
    }
  }

  /**
   * The index of the stretch that differs in the two-equal branch, with the
   * comparisons as written: i = 2 if |l0-l1| <= eps, else 1 if |l0-l2| <= eps, else 0.
   */
  function UniqueIndex(lam2: seq<real>): (i: nat)
    requires |lam2| == 3
    ensures i < 3
  {
    if Abs(lam2[0] - lam2[1]) <= SMALL_NUM then 2
    else if Abs(lam2[0] - lam2[2]) <= SMALL_NUM then 1
    else 0
  }

  /** In the two-equal branch the two other stretches are within the tolerance of each other. */
  lemma UniqueIndexPairClose(lam2: seq<real>)
    requires |lam2| == 3 && Classify(lam2) == Double
    ensures Abs(lam2[Next(UniqueIndex(lam2))] - lam2[Next(Next(UniqueIndex(lam2)))]) <= SMALL_NUM
  {
  }

  /**
   * In the two-equal branch Di vanishes only at the boundary of the comparisons:
   * i = 2 and |l0 - l1| equal to the tolerance exactly.
   */
  lemma UniqueIndexSingularOnlyAtBoundary(lam2: seq<real>)
    requires |lam2| == 3 && Classify(lam2) == Double
    ensures D(lam2, UniqueIndex(lam2)) == 0.0 ==> UniqueIndex(lam2) == 2 && Abs(lam2[0] - lam2[1]) == SMALL_NUM
  {
    var i := UniqueIndex(lam2);
    ZeroProduct(lam2[i] - lam2[Next(i)], lam2[i] - lam2[Next(Next(i))]);
  }

  /** 2^-28, a positive squared stretch that is exact in double precision. */
  const TINY_STRETCH2: real := 1.0 / 268435456.0

  /** The positive squared stretches (t, t + eps, t), t = 2^-28, take the two-equal branch with i = 2 and Di = 0. */
  lemma UniqueIndexSingularExample()
    ensures Classify([TINY_STRETCH2, TINY_STRETCH2 + SMALL_NUM, TINY_STRETCH2]) == Double
    ensures UniqueIndex([TINY_STRETCH2, TINY_STRETCH2 + SMALL_NUM, TINY_STRETCH2]) == 2
    ensures D([TINY_STRETCH2, TINY_STRETCH2 + SMALL_NUM, TINY_STRETCH2], 2) == 0.0
  {
  }

  /** The index choice with strict comparisons, matching the branch tests. */
  function UniqueIndexStrict(lam2: seq<real>): (i: nat)
    requires |lam2| == 3
    ensures i < 3
  {
    if Abs(lam2[0] - lam2[1]) < SMALL_NUM then 2
    else if Abs(lam2[0] - lam2[2]) < SMALL_NUM then 1
    else 0
  }

  /** With strict comparisons Di is never zero in the two-equal branch, and the other two stretches are close. */
  lemma UniqueIndexStrictNonsingular(lam2: seq<real>)
    requires |lam2| == 3 && Classify(lam2) == Double
    ensures D(lam2, UniqueIndexStrict(lam2)) != 0.0
    ensures Abs(lam2[Next(UniqueIndexStrict(lam2))] - lam2[Next(Next(UniqueIndexStrict(lam2)))]) < SMALL_NUM
  {
    var i := UniqueIndexStrict(lam2);
    ZeroProduct(lam2[i] - lam2[Next(i)], lam2[i] - lam2[Next(Next(i))]);
  }

  /** The two index choices differ only when a distance equals the tolerance exactly. */
  lemma UniqueIndexStrictAgreesOffBoundary(lam2: seq<real>)
    requires |lam2| == 3
    ensures UniqueIndex(lam2) != UniqueIndexStrict(lam2) ==>
      Abs(lam2[0] - lam2[1]) == SMALL_NUM || Abs(lam2[0] - lam2[2]) == SMALL_NUM
  {
  }

  // ---------------------------------------------------------------------------
  // Tangent coefficients
  // ---------------------------------------------------------------------------

  /** The sum P[0][n] + P[1][n] + P[2][n]. */
  function ColumnSum(P: seq<seq<real>>, n: nat): real
    requires IsTable(P) && n < NMAX
  {
    P[0][n] + P[1][n] + P[2][n]
  }

  /** The values accumulated into beta_i. */
  function BetaTerms(P: seq<seq<real>>, i: nat): (r: seq<real>)
    requires IsTable(P) && i < 3
    ensures |r| == NMAX
  {
    seq(NMAX, n requires 0 <= n < NMAX => P[i][n] - ColumnSum(P, n) / 3.0)
  }

  /** The values accumulated into gamma_ab. */
  function GammaTerms(P: seq<seq<real>>, a: nat, b: nat): (r: seq<real>)
    requires IsTable(P) && a < 3 && b < 3
    ensures |r| == NMAX
  {
    if a == b then seq(NMAX, n requires 0 <= n < NMAX => P[a][n] / 3.0 + ColumnSum(P, n) / 9.0)
    else seq(NMAX, n requires 0 <= n < NMAX => -P[a][n] / 3.0 - P[b][n] / 3.0 + ColumnSum(P, n) / 9.0)
  }

  /** beta_i. */
  function Beta(mu: seq<real>, alpha: seq<real>, P: seq<seq<real>>, i: nat): real
    requires |mu| == NMAX && |alpha| == NMAX && ActiveAlphaNonzero(mu, alpha) && IsTable(P) && i < 3
  {
    ActiveSum(mu, BetaWeights(mu, alpha), BetaTerms(P, i), NMAX)
  }

  /** gamma_ab. */
  function Gamma(mu: seq<real>, P: seq<seq<real>>, a: nat, b: nat): real
    requires |mu| == NMAX && IsTable(P) && a < 3 && b < 3
  {
    ActiveSum(mu, mu, GammaTerms(P, a, b), NMAX)
  }

  /** gamma_a0, gamma_a1, gamma_a2. */
  function GammaRow(mu: seq<real>, P: seq<seq<real>>, a: nat): seq<real>
    requires |mu| == NMAX && IsTable(P) && a < 3
  {
    [Gamma(mu, P, a, 0), Gamma(mu, P, a, 1), Gamma(mu, P, a, 2)]
  }

  /**
   * The scalar coefficients of the tangent in each branch: the Di divisors with
   * their reciprocals, the beta and gamma accumulations, and in the two-equal
   * case the index i of the differing stretch with its cyclic successors j, k.
   */
  datatype TangentCase =
    | AllEqual(g: real)
    | AllDistinct(d: seq<real>, invD: seq<real>, beta: seq<real>, gab: seq<seq<real>>)
    | TwoEqual(i: nat, j: nat, k: nat, di: real, invDi: Option<real>,
               beta3: real, beta1: real, g33: real, g11: real, g13: real)

  /**
   * 1.0 / d as the two-equal branch uses it: None where Java's division by a
   * zero Di gives an infinite scale.
   */
  function Reciprocal(d: real): (r: Option<real>)
    ensures r.None? <==> d == 0.0
    ensures r.Some? ==> r.value * d == 1.0
  {
    if d == 0.0 then None else Some(1.0 / d)
  }

  /** The coefficients of the two-equal branch for a given choice i of the differing stretch. */
  function TwoEqualCase(mu: seq<real>, alpha: seq<real>, lam2: seq<real>, P: seq<seq<real>>, i: nat): TangentCase
    requires |mu| == NMAX && |alpha| == NMAX && ActiveAlphaNonzero(mu, alpha) && |lam2| == 3 && IsTable(P) && i < 3
  {
    var j := Next(i);
    var k := Next(j);
    var di := D(lam2, i);
    TwoEqual(i, j, k, di, Reciprocal(di),
             Beta(mu, alpha, P, i), Beta(mu, alpha, P, j),
             Gamma(mu, P, i, i), Gamma(mu, P, j, j), Gamma(mu, P, i, j))
  }

  function TangentCaseOf(mu: seq<real>, alpha: seq<real>, lam2: seq<real>, P: seq<seq<real>>): TangentCase
    requires |mu| == NMAX && |alpha| == NMAX && ActiveAlphaNonzero(mu, alpha) && |lam2| == 3 && IsTable(P)
  {
    match Classify(lam2)
    case Triple => AllEqual(ActiveSum(mu, mu, P[0], NMAX))
    case Distinct =>
      DistinctNonsingular(lam2);
      AllDistinct(
        [D(lam2, 0), D(lam2, 1), D(lam2, 2)],
        [1.0 / D(lam2, 0), 1.0 / D(lam2, 1), 1.0 / D(lam2, 2)],
        [Beta(mu, alpha, P, 0), Beta(mu, alpha, P, 1), Beta(mu, alpha, P, 2)],
        [GammaRow(mu, P, 0), GammaRow(mu, P, 1), GammaRow(mu, P, 2)])
    case Double => TwoEqualCase(mu, alpha, lam2, P, UniqueIndex(lam2))
  }

  /** The two-equal coefficients with the index chosen by strict comparisons. */
  function TwoEqualCaseStrict(mu: seq<real>, alpha: seq<real>, lam2: seq<real>, P: seq<seq<real>>): TangentCase
    requires |mu| == NMAX && |alpha| == NMAX && ActiveAlphaNonzero(mu, alpha) && |lam2| == 3 && IsTable(P)
  {
    TwoEqualCase(mu, alpha, lam2, P, UniqueIndexStrict(lam2))
  }

  /** With strict comparisons the two-equal branch always has a finite 1/Di, and j, k are the close pair. */
  lemma TwoEqualCaseStrictNonsingular(mu: seq<real>, alpha: seq<real>, lam2: seq<real>, P: seq<seq<real>>)
    requires |mu| == NMAX && |alpha| == NMAX && ActiveAlphaNonzero(mu, alpha) && |lam2| == 3 && IsTable(P)
    requires Classify(lam2) == Double
    ensures var c := TwoEqualCaseStrict(mu, alpha, lam2, P);
      c.di != 0.0 && c.invDi == Some(1.0 / c.di) && Abs(lam2[c.j] - lam2[c.k]) < SMALL_NUM
  {
    UniqueIndexStrictNonsingular(lam2);
  }

  /** Away from distances of exactly the tolerance, the as-written and the strict choices give the same coefficients. */
  lemma TwoEqualCaseAgreesOffBoundary(mu: seq<real>, alpha: seq<real>, lam2: seq<real>, P: seq<seq<real>>)
    requires |mu| == NMAX && |alpha| == NMAX && ActiveAlphaNonzero(mu, alpha) && |lam2| == 3 && IsTable(P)
    requires Classify(lam2) == Double
    requires Abs(lam2[0] - lam2[1]) != SMALL_NUM && Abs(lam2[0] - lam2[2]) != SMALL_NUM
    ensures TangentCaseOf(mu, alpha, lam2, P) == TwoEqualCaseStrict(mu, alpha, lam2, P)
  {
    UniqueIndexStrictAgreesOffBoundary(lam2);
  }

  /** For the squared stretches (t, t + eps, t), t = 2^-28, the tangent takes the two-equal branch with Di = 0, so 1/Di has no finite value. */
  lemma TangentSingularExample(mu: seq<real>, alpha: seq<real>, P: seq<seq<real>>)
    requires |mu| == NMAX && |alpha| == NMAX && ActiveAlphaNonzero(mu, alpha) && IsTable(P)
    ensures var c := TangentCaseOf(mu, alpha, [TINY_STRETCH2, TINY_STRETCH2 + SMALL_NUM, TINY_STRETCH2], P);
      c.TwoEqual? && c.i == 2 && c.di == 0.0 && c.invDi == None
  {
    UniqueIndexSingularExample();
  }

  /**
   * The branch structure of the tangent: the case matches the branch tests,
   * the two-equal indices are a permutation of 0, 1, 2, every Di of the
   * all-distinct case is nonzero, and in the two-equal case the stretches j
   * and k are within the tolerance, 1/Di is missing exactly when Di is zero,
   * and Di is zero only for i = 2 with |l0 - l1| exactly the tolerance.
   */
  lemma TangentCaseShape(mu: seq<real>, alpha: seq<real>, lam2: seq<real>, P: seq<seq<real>>)
    requires |mu| == NMAX && |alpha| == NMAX && ActiveAlphaNonzero(mu, alpha) && |lam2| == 3 && IsTable(P)
    ensures TangentCaseOf(mu, alpha, lam2, P).AllEqual? <==> Classify(lam2) == Triple
    ensures TangentCaseOf(mu, alpha, lam2, P).AllDistinct? <==> Classify(lam2) == Distinct
    ensures TangentCaseOf(mu, alpha, lam2, P).AllDistinct? ==>
      forall i :: 0 <= i < 3 ==> TangentCaseOf(mu, alpha, lam2, P).d[i] != 0.0
    ensures TangentCaseOf(mu, alpha, lam2, P).TwoEqual? ==>
      var c := TangentCaseOf(mu, alpha, lam2, P);
      {c.i, c.j, c.k} == {0, 1, 2} &&
      Abs(lam2[c.j] - lam2[c.k]) <= SMALL_NUM &&
      c.di == D(lam2, c.i) &&
      (c.invDi.None? <==> c.di == 0.0) && (c.invDi.Some? ==> c.invDi.value == 1.0 / c.di) &&
      (c.di == 0.0 ==> c.i == 2 && Abs(lam2[0] - lam2[1]) == SMALL_NUM)
  {
    match Classify(lam2)
    case Triple =>
    case Distinct => DistinctNonsingular(lam2);
    case Double =>
      CyclicIndices(UniqueIndex(lam2));
      UniqueIndexPairClose(lam2);
      UniqueIndexSingularOnlyAtBoundary(lam2);
  }

  /** Inactive terms do not affect the tangent coefficients, whatever their alpha or power-table column. */
  lemma TangentIgnoresInactiveTerms(mu: seq<real>, alpha1: seq<real>, alpha2: seq<real>, lam2: seq<real>, P1: seq<seq<real>>, P2: seq<seq<real>>)
    requires |mu| == NMAX && |alpha1| == NMAX && |alpha2| == NMAX && |lam2| == 3 && IsTable(P1) && IsTable(P2)
    requires ActiveAlphaNonzero(mu, alpha1) && AgreeOnActive(mu, alpha1, alpha2)
    requires forall i :: 0 <= i < 3 ==> AgreeOnActive(mu, P1[i], P2[i])
    ensures ActiveAlphaNonzero(mu, alpha2)
    ensures TangentCaseOf(mu, alpha1, lam2, P1) == TangentCaseOf(mu, alpha2, lam2, P2)
  {
    ActiveSumIgnoresInactive(mu, mu, P1[0], mu, P2[0], NMAX);
    forall i | 0 <= i < 3
      ensures Beta(mu, alpha1, P1, i) == Beta(mu, alpha2, P2, i)
    {
      ActiveSumIgnoresInactive(mu, BetaWeights(mu, alpha1), BetaTerms(P1, i), BetaWeights(mu, alpha2), BetaTerms(P2, i), NMAX);
    }
    forall a, b | 0 <= a < 3 && 0 <= b < 3
      ensures Gamma(mu, P1, a, b) == Gamma(mu, P2, a, b)
    {
      ActiveSumIgnoresInactive(mu, mu, GammaTerms(P1, a, b), mu, GammaTerms(P2, a, b), NMAX);
    }
  }

  /** The tangent branch code: case selection, then the coefficients of the branch taken. */
  method TangentCoefficients(mu: seq<real>, alpha: seq<real>, lam2: seq<real>, P: seq<seq<real>>) returns (c: TangentCase)
    requires |mu| == NMAX && |alpha| == NMAX && ActiveAlphaNonzero(mu, alpha) && |lam2| == 3 && IsTable(P)
    ensures c == TangentCaseOf(mu, alpha, lam2, P)
  {
    if Abs(lam2[0] - lam2[1]) < SMALL_NUM && Abs(lam2[0] - lam2[2]) < SMALL_NUM {
      var g := AccumulateActive(mu, mu, P[0]);
      c := AllEqual(g);
    } else if Abs(lam2[0] - lam2[1]) >= SMALL_NUM && Abs(lam2[0] - lam2[2]) >= SMALL_NUM
              && Abs(lam2[1] - lam2[2]) >= SMALL_NUM {
      c := DistinctCoefficients(mu, alpha, lam2, P);
    } else {
      c := TwoEqualCoefficients(mu, alpha, lam2, P);
    }
  }

  /**
   * The all-distinct branch: for each i, Di with its reciprocal 1/Di, beta_i,
   * and the row of gamma_in.
   */
  method DistinctCoefficients(mu: seq<real>, alpha: seq<real>, lam2: seq<real>, P: seq<seq<real>>) returns (c: TangentCase)
    requires |mu| == NMAX && |alpha| == NMAX && ActiveAlphaNonzero(mu, alpha) && |lam2| == 3 && IsTable(P)
    requires Classify(lam2) == Distinct
    ensures c == TangentCaseOf(mu, alpha, lam2, P)
  {
    var ds, invs, betas, gab := DistinctTerms(mu, alpha, lam2, P);
    DistinctNonsingular(lam2);
    c := AllDistinct(ds, invs, betas, gab);
  }

  /** The loop of the all-distinct branch over i. */
  method DistinctTerms(mu: seq<real>, alpha: seq<real>, lam2: seq<real>, P: seq<seq<real>>)
    returns (ds: seq<real>, invs: seq<real>, betas: seq<real>, gab: seq<seq<real>>)
    requires |mu| == NMAX && |alpha| == NMAX && ActiveAlphaNonzero(mu, alpha) && |lam2| == 3 && IsTable(P)
    requires Classify(lam2) == Distinct
    ensures ds == [D(lam2, 0), D(lam2, 1), D(lam2, 2)]
    ensures D(lam2, 0) != 0.0 && D(lam2, 1) != 0.0 && D(lam2, 2) != 0.0
    ensures invs == [1.0 / D(lam2, 0), 1.0 / D(lam2, 1), 1.0 / D(lam2, 2)]
    ensures betas == [Beta(mu, alpha, P, 0), Beta(mu, alpha, P, 1), Beta(mu, alpha, P, 2)]
    ensures gab == [GammaRow(mu, P, 0), GammaRow(mu, P, 1), GammaRow(mu, P, 2)]
  {
    DistinctNonsingular(lam2);
    ghost var allDs := [D(lam2, 0), D(lam2, 1), D(lam2, 2)];
    ghost var allInvs := [1.0 / D(lam2, 0), 1.0 / D(lam2, 1), 1.0 / D(lam2, 2)];
    ghost var allBetas := [Beta(mu, alpha, P, 0), Beta(mu, alpha, P, 1), Beta(mu, alpha, P, 2)];
    ghost var allRows := [GammaRow(mu, P, 0), GammaRow(mu, P, 1), GammaRow(mu, P, 2)];
    ds, invs, betas, gab := [], [], [], [];
    for i := 0 to 3
      invariant ds == allDs[..i] && invs == allInvs[..i]
      invariant betas == allBetas[..i] && gab == allRows[..i]
    {
      var di, inv, beta, row := DistinctTerm(mu, alpha, lam2, P, i);
      assert allDs[..i + 1] == allDs[..i] + [di];
      assert allInvs[..i + 1] == allInvs[..i] + [inv];
      assert allBetas[..i + 1] == allBetas[..i] + [beta];
      assert allRows[..i + 1] == allRows[..i] + [row];
      ds := ds + [di];
      invs := invs + [inv];
      betas := betas + [beta];
      gab := gab + [row];
    }
    assert allDs[..3] == allDs && allInvs[..3] == allInvs;
    assert allBetas[..3] == allBetas && allRows[..3] == allRows;
  }

  /**
   * One pass of the all-distinct loop: Di and 1/Di, beta_i, and in the inner
   * loop over n the divisor Dn (nonzero) and gamma_in.
   */
  method DistinctTerm(mu: seq<real>, alpha: seq<real>, lam2: seq<real>, P: seq<seq<real>>, i: nat)
    returns (di: real, inv: real, beta: real, row: seq<real>)
    requires |mu| == NMAX && |alpha| == NMAX && ActiveAlphaNonzero(mu, alpha) && |lam2| == 3 && IsTable(P) && i < 3
    requires Classify(lam2) == Distinct
    ensures di == D(lam2, i) && di != 0.0 && inv == 1.0 / di
    ensures beta == Beta(mu, alpha, P, i) && row == GammaRow(mu, P, i)
  {
    DistinctNonsingular(lam2);
    di := D(lam2, i);
    inv := 1.0 / di;
    beta := AccumulateActive(mu, BetaWeights(mu, alpha), BetaTerms(P, i));
    row := [];
    for n := 0 to 3
      invariant |row| == n && forall b :: 0 <= b < n ==> row[b] == Gamma(mu, P, i, b)
    {
      // mb is scaled by 1/Dn, which is finite as Dn is nonzero in this branch
      var g := AccumulateActive(mu, mu, GammaTerms(P, i, n));
      row := row + [g];
    }
  }

  /** One pass over the terms accumulating beta3, beta1, g33, g11 and g13 together. */
  method AccumulateFive(mu: seq<real>, bw: seq<real>, bi: seq<real>, bj: seq<real>, gii: seq<real>, gjj: seq<real>, gij: seq<real>)
    returns (beta3: real, beta1: real, g33: real, g11: real, g13: real)
    requires |mu| == NMAX && |bw| == NMAX && |bi| == NMAX && |bj| == NMAX && |gii| == NMAX && |gjj| == NMAX && |gij| == NMAX
    ensures beta3 == ActiveSum(mu, bw, bi, NMAX) && beta1 == ActiveSum(mu, bw, bj, NMAX)
    ensures g33 == ActiveSum(mu, mu, gii, NMAX) && g11 == ActiveSum(mu, mu, gjj, NMAX) && g13 == ActiveSum(mu, mu, gij, NMAX)
  {
    beta3, beta1, g33, g11, g13 := 0.0, 0.0, 0.0, 0.0, 0.0;
    for n := 0 to NMAX
      invariant beta3 == ActiveSum(mu, bw, bi, n) && beta1 == ActiveSum(mu, bw, bj, n)
      invariant g33 == ActiveSum(mu, mu, gii, n) && g11 == ActiveSum(mu, mu, gjj, n) && g13 == ActiveSum(mu, mu, gij, n)
    {
      if mu[n] != 0.0 {
        beta3 := beta3 + bw[n] * bi[n];
        beta1 := beta1 + bw[n] * bj[n];
        g33 := g33 + mu[n] * gii[n];
        g11 := g11 + mu[n] * gjj[n];
        g13 := g13 + mu[n] * gij[n];
      }
    }
  }

  /**
   * The two-equal branch: the index i of the differing stretch, its cyclic
   * successors j and k, Di, and one loop accumulating beta3, beta1, g33, g11
   * and g13. The index is chosen with the comparisons as written, so Di is zero
   * at the boundary case of UniqueIndexSingularExample, where Java's 1.0 / Di is
   * infinite.
   */
  method TwoEqualCoefficients(mu: seq<real>, alpha: seq<real>, lam2: seq<real>, P: seq<seq<real>>) returns (c: TangentCase)
    requires |mu| == NMAX && |alpha| == NMAX && ActiveAlphaNonzero(mu, alpha) && |lam2| == 3 && IsTable(P)
    requires Classify(lam2) == Double
    ensures c == TangentCaseOf(mu, alpha, lam2, P)
  {
    var i;
    if Abs(lam2[0] - lam2[1]) <= SMALL_NUM {
      i := 2;
    } else if Abs(lam2[0] - lam2[2]) <= SMALL_NUM {
      i := 1;
    } else {
      i := 0;
    }
    var j := (i + 1) % 3;
    var k := (j + 1) % 3;
    assert i == UniqueIndex(lam2) && j == Next(i) && k == Next(j);
    var di := D(lam2, i);
    var bw := BetaWeights(mu, alpha);
    var bi := BetaTerms(P, i);
    var bj := BetaTerms(P, j);
    var gii := GammaTerms(P, i, i);
    var gjj := GammaTerms(P, j, j);
    var gij := GammaTerms(P, i, j);
    var beta3, beta1, g33, g11, g13 := AccumulateFive(mu, bw, bi, bj, gii, gjj, gij);
    // ma.scale(1.0 / Di): no finite value when Di is zero
    var invDi := if di == 0.0 then None else Some(1.0 / di);
    c := TwoEqual(i, j, k, di, invDi, beta3, beta1, g33, g11, g13);
  }

  /**
   * The control of computeDevStressAndTangent: the principal stresses always,
   * and when a tangent is requested the power table and the branch coefficients.
   * lam2 are the squared principal stretches and lamDev the deviatoric stretches.
   */
  method DevStressAndTangent(mu: seq<real>, alpha: seq<real>, lam2: seq<real>, lamDev: seq<real>, J: real, pow: Power, wantTangent: bool)
    returns (sigma: seq<real>, tangent: Option<TangentCase>)
    requires |mu| == NMAX && |alpha| == NMAX && ActiveAlphaNonzero(mu, alpha) && |lam2| == 3 && |lamDev| == 3 && J != 0.0
    ensures sigma == PrincipalStressesOf(mu, alpha, lamDev, J, pow)
    ensures tangent.Some? <==> wantTangent
    ensures wantTangent ==> tangent.value == TangentCaseOf(mu, alpha, lam2, PowTableOf(mu, alpha, lamDev, pow))
  {
    sigma := PrincipalStresses(mu, alpha, lamDev, J, pow);
    tangent := None;
    if wantTangent {
      var P := DevPowTable(mu, alpha, lamDev, pow);
      var c := TangentCoefficients(mu, alpha, lam2, P);
      tangent := Some(c);
    }
  }
}
