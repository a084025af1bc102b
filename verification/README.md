# OpenXNAV core, modelled in Dafny

OpenXNAV is a toolkit for X-ray pulsar navigation. This project models its
pure logic and proves properties of it. The modelled parts come from two places.

**Mission planning.** This covers:

- a spacecraft on an elliptical or circular Keplerian orbit, with its
  radius, anomalies, position and velocity at every time step;
- the rotation from orbital-plane coordinates into the reference frame;
- the separation vectors between the spacecraft and other objects;
- the line-of-sight test that decides whether a pulsar is hidden behind
  any of a list of bodies;
- the bar chart drawn from the resulting access series.

**The pulsar GUI.** This covers:

- the catalogue-name formatter;
- the `Pulsar` record and its STK star-file (`.st`) writer;
- the degrees/minutes/seconds converter;
- the start page's database loader, a stack drained one pulsar per clock
  tick;
- the query page's input guard and results-directory naming.

Modules follow the source:

- `Vectors` and `Rotation` hold `_rotate`.
- `Trig` holds the transcendental functions. They are parameters, with
  only `cos^2 + sin^2 = 1` assumed.
- `Orbit` holds `EllipticalOrbit`, `_calc_E` and `CircularOrbit`.
- `Trajectory` holds `separation_vec`.
- `Access` holds `pulsar_access`.
- `AccessPlot` holds `plot_accesses`.
- `PulsarName` holds `formatPulsarName` and Python's `str.split`.
- `StkFile` holds `Pulsar` and `saveToFile`.
- `Dms` holds `deg_to_dms`.
- `App` holds the screens' logic.
- `Strings`, `Wrappers` and `RealArith` are helpers.

Numbers are exact reals. Catalogue values are the text `str()` prints for
them. Exceptions become `Result`/`Option` failures.

Some points the proofs bring out:

- `Ra = a(1-e)` is labelled the apoapsis radius, but it is the smaller of
  the two apsis radii (`Orbit.Apsides`).
- Pulsar access with no bodies is an empty array, not an all-true one.
- A pulsar exactly on a body's limb counts as hidden.
- A one-row spacecraft array against a multi-row body is broadcast. The
  cross product then pairs each body row with the pulsar, but the dot
  product is always that of row 0 (`Access.OneRowBroadcast`).
- `saveToFile` stores the formatted name back, so saving twice can rename
  the file.
- The loader saves pulsars in reverse catalogue order.

## Model

| member | source | states |
|---|---|---|
| Rotation.MatricesOrthogonal | 2_mission_planning/mission_planning.py:71-81 | the node, inclination and periapsis matrices each have orthonormal rows when cos^2 + sin^2 = 1 |
| Rotation.Rotate | 2_mission_planning/mission_planning.py:83 | `_rotate` returns one row per input row |
| Rotation.RotatePreservesNorm | 2_mission_planning/mission_planning.py:71-83 | with unit angles every rotated row has the length of its input row |
| Rotation.RotateZeroIsIdentity | 2_mission_planning/mission_planning.py:71-83 | with all three angles zero the input comes back unchanged |
| Rotation.RotateRoundTrip | 2_mission_planning/mission_planning.py:71-83 | applying the transposed matrices in reverse order recovers every input row |
| AccessPlot.TrueIndices | 2_mission_planning/mission_planning.py:111-112 | the selected indices are exactly the True positions, strictly ascending |
| AccessPlot.Segments | 2_mission_planning/mission_planning.py:114-116 | k True indices give max(k-1, 0) bars; each goes from a True index i to i+1, in increasing order |
| AccessPlot.SegmentStarts | 2_mission_planning/mission_planning.py:114-116 | step i starts a bar iff it is accessible and some later step is too, so the last True index never starts one |
| AccessPlot.ColorsDistinct | 2_mission_planning/mission_planning.py:107 | `'C' + str(i)` names differ for different pulsars |
| AccessPlot.LinesOf | 2_mission_planning/mission_planning.py:114-118 | one `hlines` call per bar at height i in colour i; it fails iff some bar end lies past the time array |
| AccessPlot.AllLines | 2_mission_planning/mission_planning.py:109-118 | the bars of all pulsars, each at its pulsar's row and in its colour; it fails iff some series does not fit |
| AccessPlot.PlotAccesses | 2_mission_planning/mission_planning.py:104-120 | y-limits [-1, #pulsars], one tick per pulsar labelled with its key in order, and every bar in its pulsar's colour |
| AccessPlot.PlotSucceedsWhenTimesCover | 2_mission_planning/mission_planning.py:115-116 | a time array as long as every access series is never read out of range |
| Trajectory.BroadcastRows | 2_mission_planning/mission_planning.py:147-151 | row counts broadcast iff they are equal or one of them is 1; the result has the count that is not 1 |
| Trajectory.Separation | 2_mission_planning/mission_planning.py:142-151 | `other - self` row by row; a fixed point is subtracted from every row; mismatched series fail |
| Trajectory.SeparationSelf | 2_mission_planning/mission_planning.py:151 | the separation of a trajectory from itself is zero at every step |
| Trajectory.FixedBroadcast | 2_mission_planning/mission_planning.py:146-149 | a fixed point acts like a series repeating it, and like a one-row series |
| Trajectory.SeparationAntisymmetric | 2_mission_planning/mission_planning.py:151 | swapping the two arrays negates every separation |
| Trajectory.SeparationFails | 2_mission_planning/mission_planning.py:147-151 | a series is rejected iff neither count is 1 and the counts differ |
| Access.Evens | 2_mission_planning/mission_planning.py:177 | `args[::2]`: the arguments at even positions, in order |
| Access.Odds | 2_mission_planning/mission_planning.py:178 | `args[1::2]`: the arguments at odd positions, in order |
| Access.Pairs | 2_mission_planning/mission_planning.py:177-187 | the loop visits len(args)/2 pairs, pair i being (args[2i], args[2i+1]) |
| Access.PairsIgnoreTrailing | 2_mission_planning/mission_planning.py:185 | a trailing unpaired argument adds no pair |
| Access.PairsAppend | 2_mission_planning/mission_planning.py:177-185 | appending a body and a radius appends exactly that pair |
| Access.Column | 2_mission_planning/mission_planning.py:186-204 | a body's column is defined iff the arguments are a body and a radius and the two separations broadcast against each other; it has the broadcast row count, and entry j is the strict limb test on the broadcast rows j with the dot-product entry numpy pairs with it |
| Access.DiagDot | 2_mission_planning/mission_planning.py:200-201 | the diagonal of `np.dot(s2p, s2o.T)` gives s2p[j] . s2o[j] when the row counts agree, and the single entry s2p[0] . s2o[0] otherwise |
| Access.ColumnPerStep | 2_mission_planning/mission_planning.py:189-204 | for a trajectory of other than one row, the column has one entry per step and entry j tests step j's own body and pulsar vectors |
| Access.OneRowBroadcast | 2_mission_planning/mission_planning.py:189-204 | a one-row trajectory against a body series and a fixed pulsar gives one entry per body row, each using its own cross product but the dot product of row 0 |
| Access.Combine | 2_mission_planning/mission_planning.py:207 | `all(axis=1)`: entry j is true iff every column is true at j; no columns give an empty result |
| Access.ColumnsFromSpec | 2_mission_planning/mission_planning.py:182-205 | the loop succeeds iff every pair yields a column of the frame's width, and then returns exactly those columns |
| Access.PulsarAccessSpec | 2_mission_planning/mission_planning.py:176-208 | no pair gives an empty result; otherwise step j is visible iff every (body, radius) pair leaves the pulsar clear there |
| Access.NoBodies | 2_mission_planning/mission_planning.py:182-208 | with fewer than two arguments the result is empty, not all true |
| Access.TrailingArgumentIgnored | 2_mission_planning/mission_planning.py:185 | a trailing unpaired argument does not change the result |
| Access.OrderIndependent | 2_mission_planning/mission_planning.py:203-207 | permuting the (body, radius) pairs does not change the result |
| Access.MoreBodiesLessAccess | 2_mission_planning/mission_planning.py:203-207 | adding a body can only turn visible steps into hidden ones |
| Access.OneEntryPerStep | 2_mission_planning/mission_planning.py:189-208 | with at least one body, a trajectory of other than one row gets one entry per time step |
| Orbit.Apsides | 2_mission_planning/mission_planning.py:373-374 | Ra + Rp = 2a and Rp - Ra = 2ae, so Ra <= Rp, although Ra is labelled the apoapsis |
| Orbit.OrbitRadius | 2_mission_planning/mission_planning.py:395 | for a > 0, 0 <= e < 1 and cos v in [-1, 1] the denominator is positive and Ra <= r_t <= Rp |
| Orbit.EpochCosArg | 2_mission_planning/mission_planning.py:378-379 | the arccos argument for E_0 lies in [-1, 1] on the elliptic domain |
| Orbit.TrueCosArg | 2_mission_planning/mission_planning.py:389-390 | the arccos argument for the high-fidelity anomaly lies in [-1, 1] |
| Orbit.CosArgsInverse | 2_mission_planning/mission_planning.py:378-390 | the two arccos arguments are inverse conversions between cos v and cos E |
| Orbit.MeanAnomaly | 2_mission_planning/mission_planning.py:384-385 | one M_t per grid point, M_t[0] = M_0; an empty grid fails at t[0] |
| Orbit.MeanAnomalyLinear | 2_mission_planning/mission_planning.py:384-385 | M_t[i] - M_t[j] = n (t[i] - t[j]) for all grid points |
| Orbit.MeanAnomalyIncreasing | 2_mission_planning/mission_planning.py:384-385 | with positive mean motion, M_t grows with time |
| Orbit.SolveChainSeeds | 2_mission_planning/mission_planning.py:448-458 | solve 0 is seeded with E_0 and solve i with the answer of solve i-1 |
| Orbit.SolveChainPrefix | 2_mission_planning/mission_planning.py:453-458 | the answer at step i depends only on the mean anomalies up to i |
| Orbit.CalcE | 2_mission_planning/mission_planning.py:425-460 | `_calc_E` returns len(M) values following the seeded recurrence, or fails on an empty M |
| Orbit.SolveChainKepler | 2_mission_planning/mission_planning.py:448-457 | with an exact root finder every E_i satisfies Kepler's equation E - e sin E = M_i |
| Orbit.LofiCircular | 2_mission_planning/mission_planning.py:392-393 | with e = 0 the low-fidelity series gives v = M_t exactly |
| Orbit.Radii | 2_mission_planning/mission_planning.py:395 | every r_t is positive and lies between Ra and Rp |
| Orbit.PlanePositionAsWritten | 2_mission_planning/mission_planning.py:399-401 | the coordinates as written: in the reference plane they are (r cos v, r sin v, 0), and at v = 0 the point is pulled in to (r cos inc, 0, 0) |
| Orbit.PlanePoint | 2_mission_planning/mission_planning.py:399-401 | under the written formula the point has squared length r^2 (1 - sin^2 inc (cos^2 v - sin^2 v)); under the corrected one it has length r; both are (r cos v, r sin v, 0) at zero inclination |
| Orbit.PlanePositions | 2_mission_planning/mission_planning.py:399-401 | over the whole series: the written lengths with the formula as written, the radii r_t with the corrected formula |
| Orbit.PlanePositionAsWrittenNorm | 2_mission_planning/mission_planning.py:399-401 | the coordinates as written have squared length r^2 (1 - sin^2 inc (cos^2 v - sin^2 v)), not r^2 |
| Orbit.PlanePositionAsWrittenAtFocus | 2_mission_planning/mission_planning.py:399-401 | at r = 7000 km, v = 0 and inc = 90 degrees the written coordinates are the origin; the corrected ones are 7000 km out |
| Orbit.PlanePosition | 2_mission_planning/mission_planning.py:399-401 | the corrected in-plane point has length r for unit angles |
| Orbit.RotatedOnOrbit | 2_mission_planning/mission_planning.py:399-415 | `_rotate` keeps every point's length: on the radius r_t with the corrected formula, at the written length with the formula as written |
| Orbit.EpochOf | 2_mission_planning/mission_planning.py:378-382 | M_0 is the mean anomaly Kepler's equation gives E_0; when arccos inverts cos, cos E_0 is the epoch conversion of cos v_0, and the high-fidelity conversion of cos E_0 gives cos v_0 back |
| Orbit.EpochRecoversV0 | 2_mission_planning/mission_planning.py:378-390 | started from E_0, the high-fidelity true anomaly has the cosine of v_0 |
| Orbit.Propagate | 2_mission_planning/mission_planning.py:373-422 | every series has one entry per grid point; radii lie between the apsides; positions have the written lengths with the formula as written and lie on the radii with the corrected one; the high-fidelity path uses the seeded solve chain |
| Orbit.Elliptical | 2_mission_planning/mission_planning.py:355-422 | the constructor succeeds iff the grid is non-empty; M_0 solves Kepler's equation at E_0; radii lie between the apsides; positions have the written lengths as written and lie on the radii when corrected; the high-fidelity path uses the solve chain |
| Orbit.FormulasAgreeInPlane | 2_mission_planning/mission_planning.py:399-401 | with zero inclination the constructor as written and the corrected one build the same orbit |
| Orbit.Circular | 2_mission_planning/mission_planning.py:486-498 | `CircularOrbit`: radius r throughout, position (r cos M_t, r sin M_t, 0), and V_z = 0 |
| Orbit.CircularFacts | 2_mission_planning/mission_planning.py:486-489 | the elliptical constructor with e = 0 and zero angles moves uniformly round a circle of radius r in the reference plane |
| Orbit.CircularOverrideAgrees | 2_mission_planning/mission_planning.py:493-498 | the circular speed and velocity overrides coincide with the elliptical values at e = 0 |
| Orbit.CircularSpeeds | 2_mission_planning/mission_planning.py:493 | at r = a the vis-viva speed is sqrt(G M / r) at every step |
| Orbit.CircularVelocities | 2_mission_planning/mission_planning.py:496-498 | with zero inclination the elliptical velocity is (V cos v, V sin v, 0) |
| PulsarName.Find | 1_pulsar_querying/openXNAV-gui/queryPulsar.py:23 | the first position of the separator, or none iff it does not occur |
| PulsarName.Split | 1_pulsar_querying/openXNAV-gui/queryPulsar.py:23-25 | `str.split(sep, maxsplit)`: joining the parts gives the input back; at most maxsplit cuts; no earlier part holds the separator |
| PulsarName.Format | 1_pulsar_querying/openXNAV-gui/queryPulsar.py:22-30 | the formatted name never contains '+' and is never longer than the input |
| PulsarName.FormatPlus | 1_pulsar_querying/openXNAV-gui/queryPulsar.py:23-29 | with '+', the text before the first '+', then '_', then the text up to a second '+' |
| PulsarName.FormatMinus | 1_pulsar_querying/openXNAV-gui/queryPulsar.py:24-29 | '-' is split on only when there is no '+', in the same way |
| PulsarName.FormatUnchanged | 1_pulsar_querying/openXNAV-gui/queryPulsar.py:23-27 | a name is returned unchanged iff it holds neither '+' nor '-' |
| PulsarName.FormatIdempotentWithoutPlus | 1_pulsar_querying/openXNAV-gui/queryPulsar.py:22-30 | for a name without '+', formatting twice equals formatting once |
| PulsarName.FormatOnePlus | 1_pulsar_querying/openXNAV-gui/queryPulsar.py:23-29 | a name with one '+' becomes its halves joined by '_' |
| PulsarName.FormatAgainChangesMixedName | 1_pulsar_querying/openXNAV-gui/queryPulsar.py:22-30 | `A-B+C` formats to `A-B_C` and then to `A_B_C`: formatting is not idempotent |
| StkFile.NewPulsar | 1_pulsar_querying/openXNAV-gui/queryPulsar.py:33-45 | frame J2000 by default, zero proper motions, parallax and id, magnitude None, the zero radial-velocity string |
| StkFile.ScanBalance | 1_pulsar_querying/openXNAV-gui/queryPulsar.py:54-129 | a successful nesting scan opens and closes blocks in balance with its stack |
| StkFile.WellNestedBalanced | 1_pulsar_querying/openXNAV-gui/queryPulsar.py:54-129 | a well-nested line list has as many BEGIN as END markers |
| StkFile.DocumentsNest | 1_pulsar_querying/openXNAV-gui/queryPulsar.py:54-129 | every document built from blocks flattens to properly nested, indented BEGIN/END lines |
| StkFile.SaveToFile | 1_pulsar_querying/openXNAV-gui/queryPulsar.py:47-131 | the stored name is formatted, the path is root + name + '.st', and the lines written are well nested |
| StkFile.DocumentLines | 1_pulsar_querying/openXNAV-gui/queryPulsar.py:54-129 | the file opens with 'stk.v.12.0\n', closes with 'END Star' and no line break, and holds Star's body in between |
| StkFile.DocumentText | 1_pulsar_querying/openXNAV-gui/queryPulsar.py:54-64 | the Name, Epoch, RefFrame, RightAscension and Declination lines carry the pulsar's fields at their indentation |
| StkFile.SavedFileLayout | 1_pulsar_querying/openXNAV-gui/queryPulsar.py:49-64 | the saved file's Name line carries the formatted name |
| StkFile.NewPulsarWritten | 1_pulsar_querying/openXNAV-gui/queryPulsar.py:33-75 | a new pulsar is written with J2000, zero proper motions, zero parallax and the zero radial velocity |
| StkFile.SaveTwice | 1_pulsar_querying/openXNAV-gui/queryPulsar.py:49 | a second save formats the stored name again; without '+' it changes nothing |
| StkFile.SaveTwiceMixedName | 1_pulsar_querying/openXNAV-gui/queryPulsar.py:49-131 | a name `A-B+C` is saved as `A-B_C.st` the first time and `A_B_C.st` the second |
| Dms.DivMod60 | 1_pulsar_querying/openXNAV-gui/test.py:9-10 | `divmod(x, 60)`: x = 60q + r with 0 <= r < 60 |
| Dms.DegToDms | 1_pulsar_querying/openXNAV-gui/test.py:9-13 | 0 <= m < 60, 0 <= s < 60, abs(d)*3600 + 60m + s = abs(deg)*3600, and d has the sign of deg or is 0 |
| Dms.DegreesAreWholePart | 1_pulsar_querying/openXNAV-gui/test.py:10-13 | d = floor(abs(deg)), negated for a negative angle |
| Dms.NegationFlipsDegrees | 1_pulsar_querying/openXNAV-gui/test.py:9-13 | deg and -deg give the same m and s, and d differs only in sign |
| Dms.SignLostBelowOneDegree | 1_pulsar_querying/openXNAV-gui/test.py:11-13 | for -1 < deg < 0 the degrees are 0 and the sign is lost |
| Dms.HemisphereAsWritten | 1_pulsar_querying/openXNAV-gui/test.py:16-21 | latitude gives 'N' iff d >= 0, else 'S'; longitude gives 'E'/'W'; any other value gives '?' |
| Dms.DegToDmsAsWritten | 1_pulsar_querying/openXNAV-gui/test.py:15-25 | the pretty form exactly when pretty_print is truthy; it prints abs(d), m and s, with the letter from the sign of d; otherwise the colon form prints d, m and s |
| Dms.AsWrittenAgreesOutsideOneDegree | 1_pulsar_querying/openXNAV-gui/test.py:9-25 | for deg <= -1 or deg >= 0 the code as written and the corrected one give the same output |
| Dms.HalfDegreeSouthAsWritten | 1_pulsar_querying/openXNAV-gui/test.py:16-17 | -0.5 degrees latitude is printed 'N' as written and 'S' when corrected |
| Dms.Hemisphere | 1_pulsar_querying/openXNAV-gui/test.py:16-21 | the corrected letter: latitude 'N' iff the angle is >= 0, longitude 'E' iff the angle is >= 0 |
| Dms.DegToDmsText | 1_pulsar_querying/openXNAV-gui/test.py:15-25 | the pretty form prints abs(d), m and s, whose total is abs(deg), and takes the sign from the angle's letter; the colon form prints d, m and s |
| Dms.PrettyReadsBack | 1_pulsar_querying/openXNAV-gui/test.py:22-23 | with the corrected letter, the pretty form's magnitude and letter give the angle back |
| Strings.NatToStringRoundTrip | 1_pulsar_querying/openXNAV-gui/app.py:209 | the digits `str(n)` prints read back to n |
| Strings.KeepAlnum | 1_pulsar_querying/openXNAV-gui/app.py:202 | `re.sub(r'[^a-zA-Z0-9]', '', s)`: the result is ASCII letters and digits only and a subsequence of the input |
| Strings.KeepAlnumConcat | 1_pulsar_querying/openXNAV-gui/app.py:202 | filtering a concatenation filters each part |
| Strings.KeepAlnumFixedPoint | 1_pulsar_querying/openXNAV-gui/app.py:202 | the filter leaves a string unchanged iff it is all letters and digits, so filtering twice equals filtering once |
| App.SetEnabled | 1_pulsar_querying/openXNAV-gui/app.py:29-30 | the button is disabled iff it is not enabled |
| App.SetEnabledLastWins | 1_pulsar_querying/openXNAV-gui/app.py:29-30 | only the last call counts |
| App.PulsarOf | 1_pulsar_querying/openXNAV-gui/app.py:103-104 | a row becomes a new pulsar with name, epoch, declination and right ascension from its columns |
| App.StatusText | 1_pulsar_querying/openXNAV-gui/app.py:118-122 | while saving, the label names the pulsar as `saveToFile` renamed it; at the end it shows the success message |
| App.Generate | 1_pulsar_querying/openXNAV-gui/app.py:92-105 | the bar's maximum is the row count and one pulsar per row is pushed, in row order |
| App.Tick | 1_pulsar_querying/openXNAV-gui/app.py:108-123 | a non-empty stack loses its top, which is saved, and progress grows by 1; an empty stack cancels the timer and enables the button, with stack and progress unchanged |
| App.Drain | 1_pulsar_querying/openXNAV-gui/app.py:115-119 | a stack of k pulsars empties in k ticks, adding k to the bar |
| App.DrainSaves | 1_pulsar_querying/openXNAV-gui/app.py:115-117 | the pulsars are saved last pushed first |
| App.StoppedStaysStopped | 1_pulsar_querying/openXNAV-gui/app.py:120-121 | once the event is cancelled nothing changes |
| App.GenerateAndRun | 1_pulsar_querying/openXNAV-gui/app.py:92-123 | after N rows and N+1 ticks: progress = N = max, timer stopped, button enabled, rows saved in reverse order |
| App.RunsUnlessEmpty | 1_pulsar_querying/openXNAV-gui/app.py:183 | the query runs iff none of RA, Dec and radius is the empty string; an unset field passes |
| App.AutoTag | 1_pulsar_querying/openXNAV-gui/app.py:201-202 | the made-up tag is ASCII letters and digits only and a subsequence of str(RA)+str(Dec)+str(radius) |
| App.ResultsDirectory | 1_pulsar_querying/openXNAV-gui/app.py:190-203 | 'query_results/' + tag + '/' for a non-empty tag, else 'query_results/' + the made-up tag + '/' |
| App.AutoTagClean | 1_pulsar_querying/openXNAV-gui/app.py:201-202 | filtering the made-up tag again leaves it unchanged; it is the three fields filtered one by one |
| App.SeparatorsIgnored | 1_pulsar_querying/openXNAV-gui/app.py:201-203 | untagged queries whose RA differs only in non-alphanumerics share a directory |
| App.FindPulsars | 1_pulsar_querying/openXNAV-gui/app.py:181-223 | a query runs iff the guard holds; then it gives the directory, a banner counting the pulsars or the none-found text, and one label and one saved file per row |
| App.QueryFilesInDirectory | 1_pulsar_querying/openXNAV-gui/app.py:212-218 | every file a query writes is the results directory + formatted name + '.st' |

## Left out

- Transcendental functions are left uninterpreted. This covers sin, cos, arcsin, arccos, arctan, arctan2 and sqrt. They are fields of `Trig.Functions`, and only cos^2 + sin^2 = 1, cos 0 = 1 and sin 0 = 0 are assumed of them, plus `cos(arccos x) = x` on [-1, 1] in the members that say so. Nothing is claimed about their accuracy.
- Floating-point behaviour is not modelled. Reals are exact, so there is no rounding, overflow, infinities or NaN values. The one exception is the NaN from `arcsin` of an out-of-range ratio: `Access.Visible` treats it as "hidden", because a comparison with NaN is false.
- The sympy `nsolve` root finder is a parameter (`Orbit.Solver`). Its convergence, and a failed solve, are not modelled.
- astropy units, `SkyCoord` frames, `_get_xyz` and `sidereal_time` are foreign library calls. Coordinates are plain real vectors and times are seconds.
- The orbital-insertion path of `EllipticalOrbit` is not modelled. This is the path that takes `B`, `dec` and `lambda2` and uses arctan, tan and sidereal time. Orbit elements are given directly.
- `Trajectory.__init__` and its optional velocity arguments are not modelled, and neither is `pulsar_access_export`. These are SkyCoord construction, CSV and figure export.
- The matplotlib axes are reduced to the drawing calls they receive: `AccessPlot.HLine`, the limits, the ticks and the labels.
- Orbit.VelocityAt: keeps the velocity formula as written, `(V cos v cos inc, V sin v, V sin v sin inc)`. That formula is left unrotated, as in the source, and no property is claimed of it.
- Orbit.Elliptical: requires a > 0 and 0 <= e < 1, the domain the class documents. Outside it the source produces NaNs, which are not modelled.
- Orbit.Elliptical: with the formula as written (`AsWritten`) it promises only the squared lengths the written coordinates have, not that the positions lie on the orbit; that promise is made for the corrected formula (`Corrected`) only.
- Orbit.Propagate: the same split as `Orbit.Elliptical`; positions on the radii are proved for the corrected formula only.
- Orbit.EpochOf: what E_0 means is stated only under the assumption that arccos inverts cos on [-1, 1] (`Trig.AcosInverts`). Which branch arccos picks is not modelled, so the sign of sin v_0 is not recovered.
- Dms.DegToDms: exact real arithmetic, without the float rounding of `abs(deg)*3600`. The printing of s with `ndp` decimals is not modelled either.
- Python's `str()` of floats is not modelled. Catalogue values are held as the text `str()` would print.
- The STK file write and the `os.path.exists`/`os.mkdir` calls are file-system I/O. The model returns the lines and the path instead.
- The psrqpy catalogue queries (`PulsarDatabase`) are network calls. The rows they return are a parameter.
- These parts of the Kivy GUI are not modelled:
  - widget wiring and text styling beyond the label strings;
  - the `Clock` schedule, which is replaced by applying the tick handler explicitly;
  - the `perf_counter` count of slow ticks;
  - `_on_load_complete`, `checkForExistingDatabase`, `setup_existingDatabase` and `setup_generateDatabase`, which do file-system checks and widget setup;
  - the query page's field setters and `updateOutputDisplay`.
- The `__main__` block of `test.py` and the SDR hardware scripts are device and network I/O.

## Findings

| source | as written | input that shows it | evidently intended | confidence | as-written member | corrected member |
|---|---|---|---|---|---|---|
| 2_mission_planning/mission_planning.py:399-401 | in-plane position `(r cos v cos inc, r sin v, r sin v sin inc)` | r = 7000 km, v = 0, inc = 90 degrees gives (0, 0, 0), the centre of the central body | a point at distance r: `(r cos v, r sin v cos inc, r sin v sin inc)` | not executed; the length defect is proved, the intended formula is inferred, and since `_rotate` applies inc again the perifocal point `(r cos v, r sin v, 0)` is an equally plausible intent; both lie at distance r | Orbit.PlanePositionAsWrittenAtFocus | Orbit.PlanePosition |
| 1_pulsar_querying/openXNAV-gui/test.py:16-17 | hemisphere letter taken from the sign of the truncated degrees `d` | deg = -0.5, pretty_print = 'latitude' gives d = 0 and 'N' | the letter follows the sign of the angle, giving 'S' | not executed | Dms.HalfDegreeSouthAsWritten | Dms.DegToDmsText |

`Orbit.Elliptical` takes the in-plane formula as an argument. With
`Corrected` it places the spacecraft with `Orbit.PlanePosition`, and its
positions lie on the orbit. With `AsWritten` it is the constructor as
written. `Orbit.Circular` calls it as written, as the source does, and
`Orbit.FormulasAgreeInPlane` shows the two agree at zero inclination. The
corrected pretty form is `Dms.DegToDmsText`, which takes its letter from
`Dms.Hemisphere`.
