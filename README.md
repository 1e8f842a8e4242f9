# ArtiSynth core pieces in Dafny

This project models four pieces of ArtiSynth, a Java toolkit for biomechanical simulation, and proves properties of them.

- **Axial muscle curves** (`MuscleCurves.dfy`, `Splines.dfy`). `AxialMuscleMaterialBase` has four static factories. Each one checks its shape parameters in a fixed order and throws `IllegalArgumentException` on the first violation. It then places knots on a cubic Hermite spline. Anti-inflexion knots can be added to the force-velocity curve. The four curve setters store copies of the curves they receive.
  - The spline is a class whose knot list stays ordered by `x`.
  - A factory returns `Failure(message)` where the Java code throws.
- **Ogden material** (`Ogden.dfy`). `OgdenMaterial` stores six `mu` and six `alpha` parameters in arrays. Each parameter also has a property mode and an optional scalar field. The model covers:
  - the setters, including `setMu3`, `setMu4` and `setMu5`, which report their value under the property name `Mu2` and update `myMu2Mode`;
  - the field-aware getters, `scaleDistance` and `scaleMass`;
  - the control logic of `computeDevStressAndTangent`: the principal-stress accumulation, the power table, the three-way case split on the squared principal stretches, and the coefficients (beta, gamma, `1/Di`) that each case computes.
- **DICOM tag dictionary** (`DicomTags.dfy`). `DicomTag` holds a static `HashMap` from tag id to tag information. It supports:
  - lookups by id (`getImplicitVR`, `getName`);
  - a case-insensitive search by name (`getTagId`), which returns whichever matching entry the map's iteration reaches first;
  - `setTagInfo`.

  Tag ids are Java `int`s, so the item tags `0xFFFEE0xx` are negative numbers.
- **Jython console script request** (`ScriptConsole.dfy`). `protectWindowsSlashes` doubles each single backslash in a file name. `requestScript` builds the line `script('file',['a','b'])`.

`Wrappers.dfy` holds `Option` and `Result`. `JavaMath.dfy` holds `Math.abs` and `Math.min` over reals.

Modelling choices:

- Java `double` is modelled as `real`.
- These are passed in as function parameters:
  - the eigen-decomposition, `Math.pow` and `Math.sqrt` (as `pow`);
  - `PropertyUtils.propagateValue` (as `propagate`);
  - the spline's own cubic coefficients (as `a2`/`a3` or `coefficients`).
- `Matrix2d.solve` is Cramer's rule.
- The `HashMap` iteration order is a nondeterministic choice (`:|`) in `GetTagId`. Its specification `TagIdOutcome` allows any matching entry.

## Model

| member | source | states |
|---|---|---|
| Splines.InsertSorted | src/artisynth/core/materials/AxialMuscleMaterialBase.java:224 | adding a knot grows the knot list by exactly one |
| Splines.InsertSortedElements | src/artisynth/core/materials/AxialMuscleMaterialBase.java:224-235 | the knots after `addKnot` are the old knots plus the new one, as a multiset |
| Splines.InsertSortedKeepsSorted | src/artisynth/core/materials/AxialMuscleMaterialBase.java:224-235 | `addKnot` keeps the knot list ordered by x |
| Splines.InsertBetween | src/artisynth/core/materials/AxialMuscleMaterialBase.java:306 | a knot whose x lies between two neighbours is placed between them |
| Splines.InsertAtEnd | src/artisynth/core/materials/AxialMuscleMaterialBase.java:410 | a knot at or beyond every x is appended at the end |
| Splines.BuildInOrder4 | src/artisynth/core/materials/AxialMuscleMaterialBase.java:224-235 | four knots added in increasing x give exactly those four in that order |
| Splines.BuildMiddleLast3 | src/artisynth/core/materials/AxialMuscleMaterialBase.java:457-464 | adding first, last, then middle gives the three in x order |
| Splines.BuildFourthLast5 | src/artisynth/core/materials/AxialMuscleMaterialBase.java:395-417 | adding knots 1, 2, 3, 5, then 4 gives the five in x order |
| Splines.InsertKeepsStrict | src/artisynth/core/materials/AxialMuscleMaterialBase.java:306-326 | a knot strictly inside an interval keeps the x values strictly increasing and lands between the interval's ends |
| Splines.Spline.constructor | src/artisynth/core/materials/AxialMuscleMaterialBase.java:221 | a new curve has no knots |
| Splines.Spline.Copy | src/artisynth/core/materials/AxialMuscleMaterialBase.java:46 | the copy constructor gives a curve with the same knots |
| Splines.Spline.AddKnot | src/artisynth/core/materials/AxialMuscleMaterialBase.java:224 | the new knot list is the old one with the knot inserted in x order |
| MuscleCurves.FirstFailure | src/artisynth/core/materials/AxialMuscleMaterialBase.java:192-219 | no failure exactly when every check passes; otherwise the message of the first failing check, with all earlier checks passing |
| MuscleCurves.ActiveForceLengthChecksPass | src/artisynth/core/materials/AxialMuscleMaterialBase.java:192-219 | the seven ordered checks all pass exactly when the parameters satisfy the documented ranges |
| MuscleCurves.ActiveForceLengthShape | src/artisynth/core/materials/AxialMuscleMaterialBase.java:221-236 | valid parameters give strictly increasing knots, a transition value in (0,1], and the peak knot (1,1,0) |
| MuscleCurves.ActiveForceLengthBuild | src/artisynth/core/materials/AxialMuscleMaterialBase.java:224-235 | the four `addKnot` calls in source order produce the knot list |
| MuscleCurves.CreateActiveForceLengthCurve | src/artisynth/core/materials/AxialMuscleMaterialBase.java:185-237 | fails, with the first violated check's message, exactly when a check fails; otherwise returns a new curve with the specified knots |
| MuscleCurves.TendonForceLengthChecksPass | src/artisynth/core/materials/AxialMuscleMaterialBase.java:433-448 | the four ordered checks all pass exactly when the parameters are valid |
| MuscleCurves.TendonForceLengthShape | src/artisynth/core/materials/AxialMuscleMaterialBase.java:450-464 | the toe-end knot lies strictly between the start (1) and ISO (1 + strain) knots, and the knots strictly increase |
| MuscleCurves.TendonForceLengthBuild | src/artisynth/core/materials/AxialMuscleMaterialBase.java:457-464 | adding start, ISO, then toe end gives the knots in x order |
| MuscleCurves.TendonIgnoresCurviness | src/artisynth/core/materials/AxialMuscleMaterialBase.java:427-466 | the curviness parameter is checked but does not affect the curve |
| MuscleCurves.CreateTendonForceLengthCurve | src/artisynth/core/materials/AxialMuscleMaterialBase.java:427-467 | fails with the first violated check's message exactly when a check fails; otherwise returns a new curve with the tendon knots |
| MuscleCurves.PassiveForceLengthChecksPass | src/artisynth/core/materials/AxialMuscleMaterialBase.java:476-496 | the five ordered checks all pass exactly when the parameters are valid |
| MuscleCurves.PassiveForceLengthShape | src/artisynth/core/materials/AxialMuscleMaterialBase.java:498-519 | the low-force knot lies at a positive offset inside (start, ISO), its y is kLow times half that offset, and the knots strictly increase |
| MuscleCurves.PassiveForceLengthBuild | src/artisynth/core/materials/AxialMuscleMaterialBase.java:505-517 | adding start, ISO, then the low-force knot gives the knots in x order |
| MuscleCurves.PassiveIgnoresCurviness | src/artisynth/core/materials/AxialMuscleMaterialBase.java:469-520 | the curviness parameter is checked but does not affect the curve |
| MuscleCurves.CreatePassiveForceLengthCurve | src/artisynth/core/materials/AxialMuscleMaterialBase.java:469-520 | fails with the first violated check's message exactly when a check fails; otherwise returns a new curve with the passive knots |
| MuscleCurves.Solve | src/artisynth/core/materials/AxialMuscleMaterialBase.java:297-303 | the solution of the 2x2 system satisfies both equations |
| MuscleCurves.AntiInflexionDeterminants | src/artisynth/core/materials/AxialMuscleMaterialBase.java:297-322 | both curvature systems have determinant ±tau·h²/12, which is nonzero whenever tau and h are positive |
| MuscleCurves.AntiInflexionGuardNeverExits | src/artisynth/core/materials/AxialMuscleMaterialBase.java:271-277 | the early exit `chk <= 0 && chk >= h` can never be taken on an interval of positive length |
| MuscleCurves.AntiInflexionNoOp | src/artisynth/core/materials/AxialMuscleMaterialBase.java:278-314 | no knot is added when the end slopes are equal or when the forward or backward tau falls outside (0, h) |
| MuscleCurves.AntiInflexionPosition | src/artisynth/core/materials/AxialMuscleMaterialBase.java:286-327 | an added knot lies strictly inside the interval, at x0 + 2·tau/3 going forward or x0 + h − 2·tau/3 going backward; a feasible tau always adds one |
| MuscleCurves.AntiInflexionStepShape | src/artisynth/core/materials/AxialMuscleMaterialBase.java:244-328 | the step keeps x strictly increasing, and either inserts the knot right after index idx0 or leaves the curve unchanged |
| MuscleCurves.AddAntiInflexionKnot | src/artisynth/core/materials/AxialMuscleMaterialBase.java:244-328 | the curve's knots become the anti-inflexion step applied to the old knots |
| MuscleCurves.ForceVelocityChecksPass | src/artisynth/core/materials/AxialMuscleMaterialBase.java:341-385 | the ten ordered checks all pass exactly when the parameters are valid |
| MuscleCurves.ForceVelocityBase | src/artisynth/core/materials/AxialMuscleMaterialBase.java:391-417 | the near-C and near-E values follow the averaging formulas, the base knots strictly increase, and both curviness values are ignored |
| MuscleCurves.ForceVelocityShape | src/artisynth/core/materials/AxialMuscleMaterialBase.java:389-424 | the finished curve has 5 to 7 knots with strictly increasing x |
| MuscleCurves.ForceVelocitySecondIntervalAsWritten | src/artisynth/core/materials/AxialMuscleMaterialBase.java:419-422 | the second call at index 3 examines [0, 0.9] only when the first call added a knot; otherwise it examines [0.9, 1] |
| MuscleCurves.ForceVelocityFirstCallNoOp | src/artisynth/core/materials/AxialMuscleMaterialBase.java:420 | for valid parameters (0, 1.5, 2, 0.1, 0.5, 1.5, 0.5, 0.5) the first call adds nothing, so index 3 is the [0.9, 1] interval |
| MuscleCurves.ForceVelocitySecondIntervalIntended | src/artisynth/core/materials/AxialMuscleMaterialBase.java:421-422 | index |ks|−3 always names the interval [0, 0.9] that starts at the ISO knot, and the corrected curve strictly increases |
| MuscleCurves.ForceVelocityBuild | src/artisynth/core/materials/AxialMuscleMaterialBase.java:395-417 | adding C, near C, ISO, E, then near E gives the base knots in x order |
| MuscleCurves.CreateForceVelocityCurve | src/artisynth/core/materials/AxialMuscleMaterialBase.java:330-425 | fails with the first violated check's message exactly when a check fails; otherwise returns a new curve with the base knots after the two anti-inflexion calls, at indices 1 and 3 as written |
| MuscleCurves.AxialMuscleMaterialBase.constructor | src/artisynth/core/materials/AxialMuscleMaterialBase.java:22-25 | all four curves start unset |
| MuscleCurves.AxialMuscleMaterialBase.SetActiveForceLengthCurve | src/artisynth/core/materials/AxialMuscleMaterialBase.java:44-51 | null clears the curve; otherwise stores a fresh copy with the same knots; the other curves are unchanged |
| MuscleCurves.AxialMuscleMaterialBase.SetPassiveForceLengthCurve | src/artisynth/core/materials/AxialMuscleMaterialBase.java:70-77 | null clears the curve; otherwise stores a fresh copy with the same knots; the other curves are unchanged |
| MuscleCurves.AxialMuscleMaterialBase.SetTendonForceLengthCurve | src/artisynth/core/materials/AxialMuscleMaterialBase.java:96-103 | null clears the curve; otherwise stores a fresh copy with the same knots; the other curves are unchanged |
| MuscleCurves.AxialMuscleMaterialBase.SetForceVelocityCurve | src/artisynth/core/materials/AxialMuscleMaterialBase.java:122-129 | null clears the curve; otherwise stores a fresh copy with the same knots; the other curves are unchanged |
| Ogden.MuSetterModeTarget | src/artisynth/core/materials/OgdenMaterial.java:121-161 | `setMu3`, `setMu4` and `setMu5` leave their own mode alone and update the Mu2 mode under the name "Mu2"; the other setters update their own mode; no other mode changes |
| Ogden.AlphaSetterModeTarget | src/artisynth/core/materials/OgdenMaterial.java:319-359 | `setAlphaN` updates exactly the mode of AlphaN, under the name "AlphaN" |
| Ogden.ScaleRoundTrip | src/artisynth/core/materials/OgdenMaterial.java:874-898 | for s ≠ 0, dividing by s and multiplying by s undo each other, in both orders |
| Ogden.OgdenMaterial.constructor | src/artisynth/core/materials/OgdenMaterial.java:16-61 | the defaults are mu = (300000, 0, 0, 0, 0, 0) and alpha all 2, with every mode inherited and no fields |
| Ogden.OgdenMaterial.WithParameters | src/artisynth/core/materials/OgdenMaterial.java:104-119 | stores the first six mu and alpha values, with modes as left by the twelve setter calls in order, and no fields |
| Ogden.OgdenMaterial.SetMus | src/artisynth/core/materials/OgdenMaterial.java:106-111 | the six mu setters called in order store the six values and leave the modes as those calls do; alpha and the fields are unchanged |
| Ogden.OgdenMaterial.SetAlphas | src/artisynth/core/materials/OgdenMaterial.java:112-117 | the six alpha setters called in order store the six values and leave the modes as those calls do; mu and the fields are unchanged |
| Ogden.OgdenMaterial.SetMu | src/artisynth/core/materials/OgdenMaterial.java:121-161 | stores the value in slot n, applies that setter's mode update, changes nothing else, and without a field the getter returns the value |
| Ogden.OgdenMaterial.SetAlpha | src/artisynth/core/materials/OgdenMaterial.java:319-359 | stores the value in slot n, updates AlphaN's mode, changes nothing else, and without a field the getter returns the value |
| Ogden.OgdenMaterial.SetMuField | src/artisynth/core/materials/OgdenMaterial.java:289-317 | binds or clears the field of slot n only; afterwards the getter returns the field's value, or the stored mu when the field is cleared |
| Ogden.OgdenMaterial.GetMu | src/artisynth/core/materials/OgdenMaterial.java:241-263 | `getMuN(dp)`: the bound field's value at the point, otherwise the stored mu; SetMu, SetMuField and MusAt state what it returns after each update |
| Ogden.OgdenMaterial.GetAlpha | src/artisynth/core/materials/OgdenMaterial.java:439-461 | `getAlphaN(dp)`: the bound field's value at the point, otherwise the stored alpha; SetAlpha, SetAlphaField and AlphasAt state what it returns after each update |
| Ogden.OgdenMaterial.SetAlphaField | src/artisynth/core/materials/OgdenMaterial.java:487-515 | binds or clears the field of slot n only; afterwards the getter returns the field's value, or the stored alpha when the field is cleared |
| Ogden.OgdenMaterial.MusAt | src/artisynth/core/materials/OgdenMaterial.java:536-542 | the six mu values at a point: each is the field's value when a field is bound, the stored value otherwise |
| Ogden.OgdenMaterial.AlphasAt | src/artisynth/core/materials/OgdenMaterial.java:544-550 | the six alpha values at a point: each is the field's value when a field is bound, the stored value otherwise |
| Ogden.OgdenMaterial.ScaleDistance | src/artisynth/core/materials/OgdenMaterial.java:874-885 | s = 1 changes nothing; otherwise every mu is divided by s through its setter, so the modes follow those setter calls; alpha is unchanged |
| Ogden.OgdenMaterial.ScaleMass | src/artisynth/core/materials/OgdenMaterial.java:887-898 | s = 1 changes nothing; otherwise every mu is multiplied by s through its setter; alpha is unchanged |
| Ogden.ActiveSumIgnoresInactive | src/artisynth/core/materials/OgdenMaterial.java:560-569 | a sum over terms with mu ≠ 0 depends only on those terms' weights and values |
| Ogden.ActiveSumSingle | src/artisynth/core/materials/OgdenMaterial.java:627-631 | with a single active term the sum is that term's product |
| Ogden.AccumulateActive | src/artisynth/core/materials/OgdenMaterial.java:627-631 | the guarded accumulation loop computes the sum over active terms |
| Ogden.PrincipalStresses | src/artisynth/core/materials/OgdenMaterial.java:560-569 | the nested loop gives each principal stress as the sum of mu/alpha/J · λᵢ^alpha over active terms |
| Ogden.DevPowTable | src/artisynth/core/materials/OgdenMaterial.java:600-607 | the power table holds λᵢ^alpha for active terms and 0 for inactive ones |
| Ogden.StressesIgnoreInactiveAlpha | src/artisynth/core/materials/OgdenMaterial.java:560-569 | alpha values of terms with mu = 0 do not affect the principal stresses |
| Ogden.PowTableIgnoresInactiveAlpha | src/artisynth/core/materials/OgdenMaterial.java:600-607 | the power table ignores inactive alphas and is 0 in inactive columns |
| Ogden.ClassifyBounds | src/artisynth/core/materials/OgdenMaterial.java:613-642 | the two-equal branch has one pair within 1e-8 and one pair at least 1e-8 apart; in the all-equal branch λ1 and λ2, which the tests never compare, are within 2e-8 |
| Ogden.TripleWithDistantOuterPair | src/artisynth/core/materials/OgdenMaterial.java:619-622 | λ² = (1, 1 + 0.9e-8, 1 − 0.9e-8) takes the all-equal branch although \|λ1 − λ2\| ≥ 1e-8 |
| Ogden.CyclicIndices | src/artisynth/core/materials/OgdenMaterial.java:644-646 | i, (i+1)%3 and (i+2)%3 are the three distinct indices |
| Ogden.DistinctNonsingular | src/artisynth/core/materials/OgdenMaterial.java:637-663 | in the all-distinct branch every Di is nonzero, so 1/Di is defined |
| Ogden.UniqueIndex | src/artisynth/core/materials/OgdenMaterial.java:741-754 | the two-equal branch picks an index among 0, 1 and 2 |
| Ogden.UniqueIndexPairClose | src/artisynth/core/materials/OgdenMaterial.java:741-756 | the two stretches other than the chosen one are within 1e-8 of each other |
| Ogden.UniqueIndexSingularOnlyAtBoundary | src/artisynth/core/materials/OgdenMaterial.java:741-762 | Di can be 0 only when i = 2 and \|λ0 − λ1\| equals exactly 1e-8 |
| Ogden.UniqueIndexSingularExample | src/artisynth/core/materials/OgdenMaterial.java:741-809 | the positive λ² = (2⁻²⁸, 2⁻²⁸ + 1e-8, 2⁻²⁸) takes the two-equal branch with i = 2 and Di = 0 |
| Ogden.UniqueIndexStrict | src/artisynth/core/materials/OgdenMaterial.java:741-754 | the corrected selection also picks an index among 0, 1 and 2 |
| Ogden.UniqueIndexStrictNonsingular | src/artisynth/core/materials/OgdenMaterial.java:741-762 | with strict comparisons Di is never 0 in the two-equal branch, and the other two stretches are within 1e-8 |
| Ogden.UniqueIndexStrictAgreesOffBoundary | src/artisynth/core/materials/OgdenMaterial.java:741-754 | the strict and as-written index choices differ only when \|λ0 − λ1\| or \|λ0 − λ2\| equals 1e-8 exactly |
| Ogden.Reciprocal | src/artisynth/core/materials/OgdenMaterial.java:808 | `1.0 / Di` has no finite value exactly when Di = 0, and is the inverse of Di otherwise |
| Ogden.TangentCaseShape | src/artisynth/core/materials/OgdenMaterial.java:618-833 | the coefficient case matches the branch taken; all-distinct Di are nonzero; in the two-equal case i, j, k are a permutation of 0, 1, 2, λj and λk are within 1e-8, 1/Di is missing exactly when Di = 0, and Di = 0 only for i = 2 with \|λ0 − λ1\| exactly 1e-8 |
| Ogden.TangentSingularExample | src/artisynth/core/materials/OgdenMaterial.java:741-808 | for the positive λ² = (2⁻²⁸, 2⁻²⁸ + 1e-8, 2⁻²⁸) the tangent takes the two-equal branch with i = 2 and Di = 0, so `1.0 / Di` has no finite value |
| Ogden.TwoEqualCaseStrictNonsingular | src/artisynth/core/materials/OgdenMaterial.java:741-808 | with the index chosen by strict comparisons, Di ≠ 0, 1/Di is its finite reciprocal, and λj, λk are within 1e-8 |
| Ogden.TwoEqualCaseAgreesOffBoundary | src/artisynth/core/materials/OgdenMaterial.java:741-754 | unless \|λ0 − λ1\| or \|λ0 − λ2\| is exactly 1e-8, the as-written and the strict index choices give the same two-equal coefficients |
| Ogden.TangentIgnoresInactiveTerms | src/artisynth/core/materials/OgdenMaterial.java:626-801 | the tangent coefficients depend only on active terms' alphas and powers |
| Ogden.TangentCoefficients | src/artisynth/core/materials/OgdenMaterial.java:618-833 | the three branches compute the specified coefficients |
| Ogden.DistinctCoefficients | src/artisynth/core/materials/OgdenMaterial.java:637-731 | the all-distinct loop computes every Di, 1/Di, beta and gamma row |
| Ogden.DistinctTerms | src/artisynth/core/materials/OgdenMaterial.java:644-731 | the loop over i yields the three Di (all nonzero), their reciprocals, the three betas and the three gamma rows, in order |
| Ogden.DistinctTerm | src/artisynth/core/materials/OgdenMaterial.java:644-731 | one iteration gives a nonzero Di, its inverse, beta_i and the gamma row for i |
| Ogden.AccumulateFive | src/artisynth/core/materials/OgdenMaterial.java:764-801 | the shared loop computes beta3, beta1, g33, g11 and g13 as sums over active terms |
| Ogden.TwoEqualCoefficients | src/artisynth/core/materials/OgdenMaterial.java:739-809 | the two-equal branch, with the `<=` index choice as written, computes its indices, Di, 1/Di (missing when Di = 0) and the five accumulations |
| Ogden.DevStressAndTangent | src/artisynth/core/materials/OgdenMaterial.java:520-836 | returns the principal stresses, and the tangent coefficients of the branch as written exactly when a tangent is requested (`D != null`) |
| DicomTags.AsInt32 | src/maspack/dicom/DicomTag.java:62-64 | a 32-bit hex literal read as a Java int: congruent modulo 2³², negative exactly when the top bit is set |
| DicomTags.PutAllKeys | src/maspack/dicom/DicomTag.java:86-744 | the static block's keys are exactly the keys that were put |
| DicomTags.LastPutWins | src/maspack/dicom/DicomTag.java:86-744 | a key's entry is the value of its last put |
| DicomTags.PutAllEntry | src/maspack/dicom/DicomTag.java:86-744 | every entry comes from some put of its key |
| DicomTags.EqualsIgnoreCaseEquivalence | src/maspack/dicom/DicomTag.java:780 | the ASCII case-insensitive match is reflexive, symmetric and transitive |
| DicomTags.DifferAt | src/maspack/dicom/DicomTag.java:780 | names whose lowercased characters differ at one position do not match |
| DicomTags.OnlyKeyMatches | src/maspack/dicom/DicomTag.java:779-783 | when only one put could match a name, any match found is under that put's key |
| DicomTags.OnlyKeyNamedProtocolName | src/maspack/dicom/DicomTag.java:310 | "Protocol Name" can match only the put at key 0x00181030 |
| DicomTags.OnlyKeyNamedFilterType | src/maspack/dicom/DicomTag.java:362 | "Filter Type" can match only the put at key 0x00181160 |
| DicomTags.OnlyKeyNamedTransmittingCoil | src/maspack/dicom/DicomTag.java:377 | "Transmitting Coil" can match only the put at key 0x00181251 |
| DicomTags.DuplicateKeysLaterWins | src/maspack/dicom/DicomTag.java:310-378 | 0x00181030 holds Table Height and 0x00181160 holds Screen Type, because their later puts overwrite the earlier ones |
| DicomTags.OverwrittenNamesNotFound | src/maspack/dicom/DicomTag.java:778-786 | `getTagId("Protocol Name")` and `getTagId("Filter Type")` return -1 |
| DicomTags.StoredTagDiffersFromKey | src/maspack/dicom/DicomTag.java:360-377 | `getTagId("Transmitting Coil")` returns 0x00181151, whose name is "X-ray Tube Current" |
| DicomTags.TransmittingCoilEntries | src/maspack/dicom/DicomTag.java:360-377 | key 0x00181251 stores tag 0x00181151 named Transmitting Coil; key 0x00181151 is X-ray Tube Current |
| DicomTags.SharedNamesAmbiguous | src/maspack/dicom/DicomTag.java:508-741 | "Rows" and "Bits Allocated" may return either the group-0028 or the group-6000 tag; "PIXEL DATA" finds Pixel Data despite the case |
| DicomTags.ConstantsHaveEntries | src/maspack/dicom/DicomTag.java:20-64 | ROWS, PIXEL_DATA and ITEM have their names and VRs, and the item tags are the negative ints −0x12000, −0x11FF3 and −0x11F23 |
| DicomTags.UnknownTagHasNoEntry | src/maspack/dicom/DicomTag.java:752-771 | an id with no entry gives no VR and no name (null) |
| DicomTags.DicomTagTable.constructor | src/maspack/dicom/DicomTag.java:83-744 | the map after the static block is the fold of its puts |
| DicomTags.DicomTagTable.GetTagId | src/maspack/dicom/DicomTag.java:778-786 | returns the stored tag of some entry whose name matches ignoring case, or -1 exactly when none matches |
| DicomTags.DicomTagTable.SetTagInfo | src/maspack/dicom/DicomTag.java:794-796 | the id now maps to the new name and VR, and every other id's lookups are unchanged |
| DicomTags.DicomTagTable.GetImplicitVR | src/maspack/dicom/DicomTag.java:752-758 | the stored VR of the tag, or None (Java's null) exactly when the tag has no entry; ConstantsHaveEntries, UnknownTagHasNoEntry and SetTagInfo state its values on the table |
| DicomTags.DicomTagTable.GetName | src/maspack/dicom/DicomTag.java:765-771 | the stored name of the tag, or None (Java's null) exactly when the tag has no entry; ConstantsHaveEntries, UnknownTagHasNoEntry and SetTagInfo state its values on the table |
| DicomTags.SetTagInfoFindable | src/maspack/dicom/DicomTag.java:794-796 | after `setTagInfo` the name is a valid answer of `getTagId`, and other ids keep their names |
| ScriptConsole.Protected | src/artisynth/core/gui/jythonconsole/JythonPanelConsole.java:79-95 | the protected name is at least as long as the input and at most twice as long |
| ScriptConsole.ProtectWindowsSlashes | src/artisynth/core/gui/jythonconsole/JythonPanelConsole.java:79-95 | the index loop, which skips a backslash that is already doubled, computes the protected name |
| ScriptConsole.ProtectRun | src/artisynth/core/gui/jythonconsole/JythonPanelConsole.java:83-93 | a maximal run of n backslashes becomes a run of 2·⌈n/2⌉ |
| ScriptConsole.ProtectPathSeparators | src/artisynth/core/gui/jythonconsole/JythonPanelConsole.java:84-89 | `C:\dir` becomes `C:\\dir`, and `C:\\dir` stays as it is |
| ScriptConsole.CopyPrefix | src/artisynth/core/gui/jythonconsole/JythonPanelConsole.java:90-92 | a prefix without backslashes is copied unchanged |
| ScriptConsole.NoBackslashUnchanged | src/artisynth/core/gui/jythonconsole/JythonPanelConsole.java:79-95 | a name without backslashes is returned unchanged |
| ScriptConsole.ProtectKeepsOtherCharacters | src/artisynth/core/gui/jythonconsole/JythonPanelConsole.java:83-93 | the characters other than backslashes are kept, in order, and none are added |
| ScriptConsole.ProtectedHasEvenRuns | src/artisynth/core/gui/jythonconsole/JythonPanelConsole.java:84-89 | every backslash run in the output has even length |
| ScriptConsole.EvenRunsUnchanged | src/artisynth/core/gui/jythonconsole/JythonPanelConsole.java:86-89 | a name whose backslashes all come in pairs is left unchanged |
| ScriptConsole.ProtectIdempotent | src/artisynth/core/gui/jythonconsole/JythonPanelConsole.java:79-95 | protecting an already protected name changes nothing |
| ScriptConsole.RequestScript | src/artisynth/core/gui/jythonconsole/JythonPanelConsole.java:97-112 | the command is `script('` + protected name + `'`, then `,[...]` when args is not null, then `)` |
| ScriptConsole.AppendArgItems | src/artisynth/core/gui/jythonconsole/JythonPanelConsole.java:103-108 | the argument loop appends the quoted items with a comma before each but the first |
| ScriptConsole.ArgItemsJoined | src/artisynth/core/gui/jythonconsole/JythonPanelConsole.java:103-110 | the loop's output is the quoted arguments joined by commas, with no leading or trailing comma |
| ScriptConsole.CommandWithoutArguments | src/artisynth/core/gui/jythonconsole/JythonPanelConsole.java:101-112 | null args gives `script('F')`; an empty array gives `script('F',[])` |
| ScriptConsole.CommandWithTwoArguments | src/artisynth/core/gui/jythonconsole/JythonPanelConsole.java:101-112 | two arguments give `script('F',['a','b'])` |
| ScriptConsole.UnescapedArgumentsAmbiguous | src/artisynth/core/gui/jythonconsole/JythonPanelConsole.java:108 | arguments are quoted but not escaped, so the single argument `a','b` gives the same command as the two arguments `a` and `b` |

## Left out

- Splines.Spline.AddKnot: inserts a knot whose x equals an existing knot's after the equal ones, rather than rejecting it as the spline class is documented to. The spline class is not part of this model, and the curve factories never add a duplicate x: the *Shape lemmas and InsertKeepsStrict prove their knots strictly increase.
- Tensor algebra is not modelled: the eigen-decomposition of B, the matrices `ma`/`mb`, and all the `TensorUtils` updates of `D`. `Ogden.DevStressAndTangent` returns the scalar coefficients those updates use: the principal stresses, beta, gamma, Di and 1/Di. `Dpi`, `I1` and `I3` are not computed.
- `Math.pow` and `Math.sqrt` are not modelled. The power function is a parameter, and the deviatoric stretches are inputs.
- IEEE floating point is not modelled: rounding, NaN and infinities.
  - Ogden.DevStressAndTangent: requires J ≠ 0 and a nonzero alpha for every active term, where Java would produce an infinity or NaN.
- Ogden.TwoEqualCoefficients: where Di = 0, Java's `1.0 / Di` is an infinity that then spreads through `ma` and `D`. The model records it as a missing reciprocal (`None`) and does not model the infinite or NaN entries of the tangent.
- Ogden.OgdenMaterial.ScaleDistance: requires s ≠ 0; Java would divide by zero.
- Ogden.OgdenMaterial.WithParameters: requires arrays of at least six entries; Java would throw `ArrayIndexOutOfBoundsException` on shorter ones.
- `scaleDistance`/`scaleMass`: the superclass part is not modelled.
- OgdenMaterial pieces that are not modelled:
  - `setBulkModulus` and the bulk modulus;
  - the `setMuNMode`/`setAlphaNMode` methods;
  - `equals`, `clone`, `main` and the property-list registration;
  - `notifyHostOfPropertyChange`.
- `PropertyUtils.propagateValue` is not modelled. It is the `propagate` parameter, whose result becomes the new mode.
- CubicHermiteSpline1d is not part of this model beyond its ordered knot list. Its cubic coefficients `a2`/`a3` are inputs to `MuscleCurves.AddAntiInflexionKnot` and a `coefficients` parameter of `MuscleCurves.CreateForceVelocityCurve`.
- `writeItems` and `scanItem` are not modelled; they are text I/O.
- DicomTags.DicomTagTable.constructor: holds 37 of the 659 puts of the static block: the entries whose key and stored tag differ and their neighbours, the keys put twice, the entries the lemmas above name, 13 of the 54 group-0028 puts, 4 of the 24 group-6000 puts, both group-7FE0 puts and the 3 item puts. Of the 7 names shared by several keys it keeps 4 (Rows, Columns, Bits Allocated, Compression Code (RET)); "Recognition Code (RET)", "Pixel Component Organization" and "Interpretation Transcription Time" are left out. 14 of the 39 public constants have their entry; 12 are declared as constants here (BITS_STORED and HIGH_BIT appear only as puts). Every name the lemmas use occurs in the static block only at the keys modelled.
- DicomTags.EqualsIgnoreCase: folds ASCII letters only, while Java's `equalsIgnoreCase` also folds other Unicode letters.
- Null strings are not modelled:
  - ScriptConsole.RequestScript: a null `fileName` (a `NullPointerException` in `protectWindowsSlashes`) and null elements of `args` (Java appends `'null'`) are not modelled.
  - DicomTags.DicomTagTable.GetTagId: `getTagId(null)` (a `NullPointerException` on a non-empty table) is not modelled, nor are null names stored by `setTagInfo`.
- DicomTags.DicomTagTable.GetTagId: `HashMap` iteration order is a nondeterministic choice, so the result is any matching entry's tag, not the one a given JVM would find first.
- ScriptConsole.RequestScript: returns the command line. Handing it to the console (`setLineText`, `acceptLine`) is not modelled.
- The rest of the Jython console is not modelled: the interpreter, threads and the window.
- `SphericalJointForceBound` and `MeshBodyEditor` are not part of this model.

## Findings

| source | as written | input that shows it | evidently intended | confidence | as-written member | corrected member |
|---|---|---|---|---|---|---|
| src/artisynth/core/materials/AxialMuscleMaterialBase.java:419-422 | the second `addAntiInflexionKnot` call always uses index 3 | parameters (0, 1.5, 2, 0.1, 0.5, 1.5, 0.5, 0.5): the first call adds no knot, so index 3 is the near-E to E interval [0.9, 1] | the comment's interval from ISO to near E, at index 2 or 3 depending on the first call | not executed | MuscleCurves.ForceVelocityFirstCallNoOp | MuscleCurves.ForceVelocitySecondIntervalIntended |
| src/artisynth/core/materials/OgdenMaterial.java:741-762 | the two-equal branch selects the unique index with `<=` against 1e-8, which the branch test itself excludes as a close pair | λ² = (2⁻²⁸, 2⁻²⁸ + 1e-8, 2⁻²⁸), all positive: \|λ0 − λ1\| is exactly 1e-8 (also in double arithmetic), so the branch chooses i = 2, Di = (λ2 − λ0)·(λ2 − λ1) = 0 and `1.0 / Di` is infinite | strict `<`, matching the branch test, so the chosen index is the distinct one and Di ≠ 0 | not executed | Ogden.TangentSingularExample | Ogden.TwoEqualCaseStrictNonsingular |
