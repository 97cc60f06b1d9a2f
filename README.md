# Propofol calculators: a verified model

This project models the decision logic of the two Streamlit pages of the Propofol
Calculator repository.

- **Paedfusor infusion-rate recommender** (`file-fv3.py`, `calculate_propofol_infusion_flexible`).
  Weight-scaled volumes and clearances give the rate constants of a three-compartment model
  with an effect site. The right-hand side of the ODE system is handed to an integrator. The
  search runs over the 120 candidate rates 3.0, 3.1, …, 14.9 mg/kg/h. A candidate qualifies
  when its mean effect-site concentration (Ce) after minute 10 lies in [1.2, 1.4] mcg/mL, and
  the best one is replaced only by a strictly smaller distance to 1.3. The result is either a
  success record or a failure record. The first-crossing times for Ce > 1.4 and Ce ≥ 1.2 pick
  the message templates. The page reads its checkpoint table at the sample nearest each key
  time.
- **Sallam bolus calculator** (`sallam_propofol_calc.py`). Mosteller BSA is
  √(height·weight/3600). The bolus dose is 0.75 + 0.14·age + 45.82·BSA. The page divides the
  dose by weight and puts the result into one of three safety bands.

All quantities are exact `real`s. The ODE integrator (`odeint`) is the parameter
`PkModel.Odeint`, a function from (right-hand side, initial state, sample times, rate in
mg/min) to one state per sample time. It is given `PkModel.PkRhs(p)`, the closure
(y, rate) ↦ `Derivative(p, y, rate)` that stands for `pk_model` (file-fv3.py:33-40), so the
right-hand side whose conservation lemmas are proved is the one that drives the trajectories. The model assumes only that one row is returned per sample time
(`PkModel.SolverShape`). The square root is the parameter `sqrt` of `SallamCalc`, constrained
only by `IsSquareRoot`: the result is non-negative and its square is the argument.

Modules: `Options` (option.dfy), `PkModel` (pk_model.dfy), `Grids` (grids.dfy), `Series`
(series.dfy), `Infusion` (infusion.dfy), `SallamCalc` (sallam.dfy).

The search itself (`Infusion.SearchBestRate`) is a loop that keeps a running best rate and
score, as the source does. It is proved equal to the specification function `Infusion.BestIn`.
The lemmas about `BestIn` show that it finds the first closest qualifier, and finds nothing
exactly when no candidate qualifies.

Some members are plain definitions with no contract of their own:
- `PkModel.EffectSiteCurve` is the Ce column divided by V1·1000 (file-fv3.py:50, 62).
- `PkModel.PlasmaCurve` is the C1 column divided by V1·1000 (file-fv3.py:61).
- `PkModel.Concentration` is the unit conversion both of them use.
- `PkModel.PkRhs` is the `pk_model` closure (file-fv3.py:33-40).
- `Infusion.RateMgPerMin` is rate·weight/60 (file-fv3.py:48, 59).
- `Infusion.InBand` is the band test 1.2 ≤ mean ≤ 1.4 (file-fv3.py:53).
- `Infusion.Score` is abs(mean − 1.3) (file-fv3.py:54).
- `Series.SteadyWindow` is the mask `Ce[time_points > 10]` (file-fv3.py:51, 79).
- `Series.Mean` is `np.mean` over exact reals (file-fv3.py:52, 80).

`Infusion.SteadyMeanCe`, `Infusion.CandidateMeanCe`, `Series.AfterIsSuffix`,
`Series.SteadyWindowOnTimeGrid` and `Series.MeanBetween` fix the contents and bounds of these
definitions.

The code has no input validation of its own and does not catch integrator failures. Weight
bounds come only from the input widgets, and an integrator problem would reach the page
unchanged. The model follows the code: it states the weight bound as a precondition, and it
has no failure path other than "no qualifying rate".

## Model

| member | source | states |
|---|---|---|
| `PkModel.Derive` | file-fv3.py:21-32 | for weight > 0 the volumes are positive and every rate constant is a weight-free constant: k10 = 0.119/0.458, k12 = 0.112/0.458, k21 = 0.112/0.308, k13 = 0.042/0.458, k31 = 0.042/0.789; ke0 = 0.152 |
| `PkModel.CancelWeight` | file-fv3.py:28-32 | a ratio of two quantities scaled by the same positive weight equals the ratio of their coefficients |
| `PkModel.DeriveScalesWithWeight` | file-fv3.py:21-32 | scaling the weight by c scales every volume and clearance by c and leaves every rate constant and ke0 unchanged |
| `PkModel.Derivative` | file-fv3.py:33-40 | the exchange terms cancel: dA1 + dA2 + dA3 = −k10·A1 + 1000·rate |
| `PkModel.EffectSiteDoesNotFeedBack` | file-fv3.py:36-38 | changing Ae leaves dA1, dA2 and dA3 unchanged |
| `PkModel.MassConservedWithoutElimination` | file-fv3.py:36-38 | with k10 = 0 the three PK compartments together gain exactly the infused 1000·rate mcg/min |
| `PkModel.EffectSiteEquilibrium` | file-fv3.py:39 | dAe = 0 iff Ae = A1, and dAe > 0 iff Ae < A1 |
| `PkModel.DerivativeQuasiPositive` | file-fv3.py:33-40 | at a non-negative state with non-negative infusion, each empty compartment has a non-negative derivative, so amounts cannot be driven below zero |
| `PkModel.InitialState` | file-fv3.py:41-42 | the whole bolus, bolus·weight·1000 mcg, is in A1 and A2 = A3 = Ae = 0 |
| `PkModel.InitialPlasmaConcentration` | file-fv3.py:41-42 | at time 0, C1 = bolus/0.458 whatever the weight, and Ce = 0 |
| `Grids.Ceil` | file-fv3.py:44 | the ceiling used for np.arange's length: n − 1 < x ≤ n |
| `Grids.Linspace` | file-fv3.py:43 | np.linspace: num values, first = start, last = stop, constant step (stop − start)/(num − 1) |
| `Grids.Arange` | file-fv3.py:44 | np.arange: element i is start + i·step and lies below stop, and the next value would not |
| `Grids.TimeGrid` | file-fv3.py:43 | linspace(0, 120, 1201) is exactly the 1201 values i/10 |
| `Grids.RateGrid` | file-fv3.py:44 | arange(3, 15, 0.1) is exactly the 120 values 3.0 + 0.1·i |
| `Grids.TimeGridMonotone` | file-fv3.py:43 | the time grid is strictly increasing |
| `Grids.RateGridAscending` | file-fv3.py:44 | the rate grid is strictly increasing within [3, 15) |
| `Series.Abs` | file-fv3.py:54 | abs(x) is non-negative and equals x or −x |
| `Series.After` | file-fv3.py:51 | the boolean-mask selection keeps at most as many values as it is given |
| `Series.AfterIsSuffix` | file-fv3.py:51 | if exactly the samples from index k on lie after the cutoff, the mask selects the tail from k |
| `Series.SteadyWindowOnTimeGrid` | file-fv3.py:51 | on the 0.1-minute grid the window t > 10 is exactly samples 101..1200 (1100 values) |
| `Series.SumBetween` | file-fv3.py:52 | n·lo ≤ sum ≤ n·hi when every sample lies in [lo, hi] |
| `Series.MeanBetween` | file-fv3.py:52 | the mean lies within any bounds of the samples |
| `Series.FirstIndex` | file-fv3.py:63-65 | the first element of np.where: the condition holds there and at no earlier index; it is absent iff the condition holds nowhere |
| `Series.FirstIndexWeaker` | file-fv3.py:63-74 | a weaker condition first holds no later than a stronger one |
| `Series.NearestIndex` | file-fv3.py:157 | argmin of distance: no sample is closer to the key, and every earlier sample is strictly farther |
| `Series.NearestIndexExact` | file-fv3.py:157 | on a strictly increasing grid containing the key, the lookup returns the key's own index |
| `Infusion.Simulate` | file-fv3.py:48-49 | the simulation of one candidate, integrating the pk_model right-hand side from the bolus state at rate·weight/60 mg/min, gives one state per time-grid sample |
| `Infusion.SteadyMeanCe` | file-fv3.py:51-52 | the steady-state mean of a Ce curve on the time grid is the mean of exactly its samples 101..1200 |
| `Infusion.CandidateMeanCe` | file-fv3.py:48-52 | the score input of one candidate: the mean of samples 101..1200 of the Ce curve simulated at rate·weight/60 mg/min |
| `Infusion.GridMeans` | file-fv3.py:47-52 | for each grid rate i, the mean of samples 101..1200 of the Ce curve simulated at the i-th grid rate |
| `Infusion.BestIn` | file-fv3.py:45-57 | the running best after the scan is an index of the scanned candidates or none |
| `Infusion.BestInStep` | file-fv3.py:53-57 | one step of the scan: candidate i becomes the best only if it qualifies and no best exists yet or its score is strictly smaller; otherwise the best is kept |
| `Infusion.BestInNoneIff` | file-fv3.py:45-58 | the scan yields none iff no candidate's mean lies in [1.2, 1.4] |
| `Infusion.BestInIsFirstClosest` | file-fv3.py:53-57 | the chosen candidate qualifies, minimises abs(mean − 1.3) among qualifiers, and every earlier qualifier scores strictly worse |
| `Infusion.FirstClosestUnique` | file-fv3.py:53-57 | at most one candidate has the first-closest property |
| `Infusion.BestInIff` | file-fv3.py:53-57 | the scan returns k iff k is the first closest qualifier |
| `Infusion.TieGoesToSmallestRate` | file-fv3.py:55-57 | among qualifiers with the best score, the chosen rate is the smallest |
| `Infusion.SearchBestRate` | file-fv3.py:45-57 | the loop with its running best rate and score returns the rate of BestIn over the grid means, or none exactly when BestIn finds none |
| `Infusion.CrossingTime` | file-fv3.py:63-78 | the first sample time at which the condition holds: it holds at a sample with that time and at no earlier sample; absent iff it holds at no sample |
| `Infusion.ReachNoLaterThanExceed` | file-fv3.py:63-78 | if Ce ever exceeds 1.4, it reaches 1.2 as well and no later |
| `Infusion.Report` | file-fv3.py:58-99 | the success record for the winning rate: the C1 and Ce curves come from simulating that rate again with the parameters, initial state and grid of the search; the expected Ce equals the mean the search scored (same simulation, same window); the crossing times are the first times Ce > 1.4 and Ce ≥ 1.2; each message template matches the presence of its time; the mg, mg/h and mg/min conversions |
| `Infusion.Calculate` | file-fv3.py:18-107 | failure with "No suitable infusion rate found" iff no grid candidate qualifies; otherwise the report for the grid rate BestIn picks, whose expected Ce lies in [1.2, 1.4] |
| `Infusion.CheckpointTable` | file-fv3.py:156-161 | one row per key time |
| `Infusion.CheckpointsAreExactSamples` | file-fv3.py:156-161 | on the time grid each key time is itself a sample, the lookup finds that sample's index (key·10), and the row holds C1 and Ce at exactly that sample |
| `SallamCalc.SquareRootUnique` | sallam_propofol_calc.py:13-15 | two non-negative numbers with equal squares are equal, so the square-root spec fixes one value |
| `SallamCalc.Bsa` | sallam_propofol_calc.py:13-15 | BSA ≥ 0 and BSA² = height·weight/3600 |
| `SallamCalc.BsaDeterminedByInputs` | sallam_propofol_calc.py:13-15 | any two square-root functions meeting the spec give the same BSA |
| `SallamCalc.BolusDose` | sallam_propofol_calc.py:17-19 | for non-negative age and BSA the dose is at least 0.75 mg |
| `SallamCalc.BolusDoseMonotone` | sallam_propofol_calc.py:19 | the dose is non-decreasing in age and in BSA |
| `SallamCalc.BolusDoseComponents` | sallam_propofol_calc.py:19 | the dose is 0.75 mg at age 0 and BSA 0, and at any inputs it changes by 0.14·Δage when only age changes and by 45.82·ΔBSA when only BSA changes |
| `SallamCalc.DosePerKg` | sallam_propofol_calc.py:60 | dose_per_kg · weight = dose |
| `SallamCalc.SafetyBand` | sallam_propofol_calc.py:126-131 | exactly one band: high iff dose_per_kg > 3.0, low iff dose_per_kg < 1.0, normal iff 1.0 ≤ dose_per_kg ≤ 3.0 |
| `SallamCalc.Assess` | sallam_propofol_calc.py:58-60 | the page's computation: BSA meets the Mosteller spec, the dose is the Sallam formula at that age and BSA, dose_per_kg · weight = dose, and the band is that of the stored dose_per_kg |
| `SallamCalc.DefaultPatientWithinRange` | sallam_propofol_calc.py:30-60 | for the page's default inputs (1 month, 4 kg, 52 cm), BSA lies in (0.2403, 0.2404), the dose in (11.90, 11.92) mg, and the band is normal |

## Left out

- `odeint` numerical integration (file-fv3.py:49, 60) is a floating-point library call. It is the parameter `Odeint`, assumed only to return one row per sample time. Nothing is proved about accuracy, or about the trajectory solving the ODE system.
- Steady-state Ce is not proved to increase with the infusion rate, because the trajectories come from the opaque integrator.
- Floating point is not modelled: `np.arange` accumulation error, `np.mean` summation order, and `round(…)` of rates, Ce and table entries (file-fv3.py:85-88, 160-161). The model computes over exact reals, and rounding is a display concern only.
- The message templates are modelled by which template is chosen and the time it carries (`ExceedWarning`, `ReductionWarning`, `ReachInfo`). The f-string text is left out, and so are the Streamlit metrics and warning texts of the bolus page.
- The unused time argument `t` of `pk_model` is omitted from `PkModel.Derivative`.
- `PkModel.Derive` and everything built on it require weight > 0. The input widget allows only 5–100 kg, and weight 0 divides by zero in the source.
- `SallamCalc.Assess` requires weight > 0 and height ≥ 0. The widgets enforce weight ≥ 0.1 and height ≥ 10, and dividing by weight 0 fails in the source.
- The square root is a parameter given by its spec. The model does not build one.
- Streamlit widgets, layout, matplotlib and plotly charts, and pandas DataFrames are presentation only and are not modelled (file-fv3.py:1-16, 109-155, 162-166; sallam_propofol_calc.py:1-11, 21-57, 61-125, 132-178).
- The nearest-sample lookup is the source's linear argmin. It is not a binary search.
- Clinical validity of the constants is not modelled.
