# ReMAIn flexibility engine in Dafny

ReMAIn is a Streamlit app. It estimates how large a sudden real-power disturbance a
small grid can survive before its frequency leaves the allowed band. This project
models the app's four computational functions in `main.py` and proves properties of them:

- **Asset flexibility** (`get_asset_flexibility`). For one generation or storage asset,
  *Up* is how much more power it can deliver at each sample of a time grid and *Down*
  how much less. Each is a linear ramp that starts after the asset's latency. It is
  clamped to be non-negative (Up) or non-positive (Down). It is also clamped to the
  headroom `maxOutput - output` (Up) or the footroom `minOutput - output` (Down). An
  energy-limited asset (a battery, one with a charge) also zeroes every sample at which
  the energy delivered so far exceeds its stored energy. Likewise, it zeroes every sample
  at which the energy absorbed so far exceeds its free capacity. Energy so far is the
  running sum of the curve times the grid step. An absent asset contributes zero
  everywhere.
- **Power disturbance curve** (`get_power_disturbance_curve`). From the system's
  inertia K (kinetic energy in MWs), its frequency f and the limits fmin and fmax, the
  app computes two margins:
  - the energy that can be released before fmin is reached, `K - K(fmin/f)^2`;
  - the energy that can be absorbed before fmax is reached, `K(fmax/f)^2 - K`.

  It divides each margin by the elapsed time to get the tolerated disturbance at each
  sample. The upper curve is positive and the lower curve negative.
- **Aggregation** (`flexibility_aggreagation`): the elementwise sum of the envelopes of
  the five asset kinds (gas-fired, hydro, solar, wind, battery).
- **Max/min disturbance** (`get_max_min_disturbance`). This is the first sample where the
  aggregate Down drops strictly below the lower curve, and the first where the aggregate
  Up rises strictly above the upper curve. It reports the curve values and the times at
  those samples.

Modules:
- `Wrappers`: `Option` and `Result`.
- `Series`:
  - the time-grid predicate;
  - a generic sum with its concatenation and permutation laws;
  - the cumulative sum;
  - elementwise addition;
  - the first-index search.
- `Flexibility`: assets and envelopes.
- `Disturbance`: the grid system and its tolerance curve.
- `Aggregation`: the five-asset sum.
- `Search`: the crossing search.

All quantities are `real`, and the time grid is a `seq<real>` passed in by the caller.

The engine computes the moment of inertia J from `K = 1/2 J w^2` with `w = 4 pi f / 2`,
and the kinetic energies at the limits from J again. `Disturbance.RotorMoment` and
`Disturbance.RotorEnergy` keep that formula, with the value of pi as a parameter.
`Disturbance.MarginsAsWritten` proves that pi and J cancel for any non-zero pi. The
margins therefore have the closed forms above, and the curve is defined with them.

Several behaviours of the code deserve a note:

- With the frequency exactly midway between its limits, the curve is **not** symmetric.
  Kinetic energy is quadratic in frequency, so `-lower` is strictly larger than `upper`
  at every sample (`Disturbance.MidwayCurveIsAsymmetric`).
- A charge of 0 % forces **Up** to zero, because there is nothing to discharge. A charge
  of 100 % forces **Down** to zero.
- The energy zeroing is not a rule that switches back on. Up is never negative and the
  step is positive, so the running sum only grows; once a sample is zeroed, every later
  sample is zeroed too (`Flexibility.UpZeroingPersists`). Down mirrors this.
- `get_asset_flexibility` validates nothing. An asset with `output` outside
  `[minOutput, maxOutput]`, or a negative rate, is processed as given. The app's input
  widgets keep inputs in range: minimum frequency at most 59.9 Hz, maximum at least
  60.1 Hz, frequency between them, positive rates and latencies, a grid starting at
  0.1 s. The lemmas that need such facts take them as preconditions; the functions do not.

## Model

| member | source | states |
|---|---|---|
| Series.CumSum | main.py:36-37 | each entry of the cumulative sum is the sum of the prefix of the series up to and including it |
| Series.FirstAbove | main.py:81-82 | returns an index iff some sample of the first series is strictly above the second; the index is the first such sample, and every earlier one is at or below |
| Series.FirstAboveFrom | main.py:81-82 | the search from position k finds an index at or after k that is above, with none above between k and it; it finds nothing exactly when no sample from k on is above |
| Series.SumOfPermutation | main.py:72-73 | a sum over a sequence equals the sum over any rearrangement of it |
| Series.SumOfRemove | main.py:72-73 | a sum equals the sum without one element plus that element's term |
| Flexibility.AssetFlexibility | main.py:13-39 | Up and Down have one sample per grid point; the envelope's operating point is the asset's output, or 0 for an absent asset |
| Flexibility.LimitUp | main.py:36 | each Up sample is zeroed exactly when the running sum up to it, times dt, exceeds the energy to empty, and is kept otherwise |
| Flexibility.LimitDown | main.py:37 | each Down sample is zeroed exactly when minus the running sum up to it, times dt, exceeds the energy to full, and is kept otherwise |
| Flexibility.AbsentAssetIsZero | main.py:17-18 | an absent asset gives zero Up and Down at every sample and output 0 |
| Flexibility.ClampUp | main.py:22-23 | the clamped value never exceeds the headroom, is non-negative when the headroom is, and is the raw value itself when that already lies in [0, headroom] |
| Flexibility.ClampDown | main.py:27-28 | the clamped value is never below the footroom, is non-positive when the footroom is, and is the raw value itself when that already lies in [footroom, 0] |
| Flexibility.ClampUpMonotone | main.py:22-23 | the Up clamp preserves order: a larger raw value never gives a smaller result |
| Flexibility.ClampDownMonotone | main.py:27-28 | the Down clamp preserves order |
| Flexibility.RampUpAt | main.py:21-23 | the unlimited Up ramp never exceeds the headroom, and is non-negative when output is at most maxOutput |
| Flexibility.RampDownAt | main.py:26-28 | the unlimited Down ramp is never below the footroom, and is non-positive when output is at least minOutput |
| Flexibility.RampUpCurve | main.py:21-23 | one sample per grid point, each the Up ramp at that sample's time |
| Flexibility.RampDownCurve | main.py:26-28 | one sample per grid point, each the Down ramp at that sample's time |
| Flexibility.EnergyToEmpty | main.py:32 | 0 at 0 % charge, the whole capacity at 100 %, and between 0 and the capacity for a charge in [0, 100] and a non-negative capacity |
| Flexibility.EnergyToFull | main.py:33 | with the energy to empty it adds up to the capacity; the whole capacity at 0 %, 0 at 100 %, and between 0 and the capacity for a charge in [0, 100] |
| Flexibility.Step | main.py:35 | the step is positive exactly when the second sample comes after the first |
| Flexibility.RampZeroBeforeLatency | main.py:21-28 | at or before the latency both ramps are 0 |
| Flexibility.RampMonotone | main.py:21-28 | the unlimited Up ramp never decreases and Down never increases over time |
| Flexibility.RampSaturates | main.py:21-28 | once latency plus headroom over rate has elapsed, Up equals the headroom; likewise Down reaches the footroom |
| Flexibility.EnvelopeWithinBounds | main.py:13-39 | with or without energy limit, every Up sample is in [0, maxOutput - output] and every Down sample in [minOutput - output, 0] |
| Flexibility.EnvelopeZeroBeforeLatency | main.py:13-39 | with or without energy limit, no sample at or before the latency offers flexibility |
| Flexibility.UnlimitedEnvelopeMonotone | main.py:20-39 | without storage the envelope is the clamped ramp; over an increasing grid Up is non-decreasing and Down non-increasing |
| Flexibility.StorageZeroesPointwise | main.py:31-37 | with storage, each Up sample is 0 if the energy delivered so far exceeds charge times energy over 100, else the ramp value; Down likewise against the remaining capacity |
| Flexibility.LimitUpPersists | main.py:36 | over a non-negative curve, once a sample is zeroed every later sample is zeroed |
| Flexibility.LimitDownPersists | main.py:37 | over a non-positive curve, once a sample is zeroed every later sample is zeroed |
| Flexibility.UpZeroingPersists | main.py:31-36 | for a storage asset, once Up is zeroed by the energy limit it stays zero for the rest of the grid |
| Flexibility.DownZeroingPersists | main.py:31-37 | for a storage asset, once Down is zeroed by the capacity limit it stays zero for the rest of the grid |
| Flexibility.EmptyStorageCannotRampUp | main.py:31-36 | a storage asset at 0 % charge has Up equal to 0 at every sample |
| Flexibility.FullStorageCannotRampDown | main.py:31-37 | a storage asset at 100 % charge has Down equal to 0 at every sample |
| Flexibility.GasFiredScenario | main.py:13-39 | a gas-fired unit at 7 of 10 MW, latency 1 s, rates 1 and 1.5 MW/s, sampled at 0.5, 2 and 3 s, has Up 0, 1, 2 and Down 0, -1.5, -3 |
| Disturbance.RotorMoment | main.py:49-52 | J is positive for positive inertia, and the rotor energy of J at the present frequency is the inertia K again |
| Disturbance.RotorEnergy | main.py:55-56 | the energy 1/2 J w^2 is non-negative for a non-negative J |
| Disturbance.KineticEnergyAt | main.py:52-56 | the closed-form kinetic energy at the present frequency is the inertia |
| Disturbance.MarginDown | main.py:59 | the margin to fmin is 0 when fmin is the present frequency |
| Disturbance.MarginUp | main.py:60 | the margin to fmax is 0 when fmax is the present frequency |
| Disturbance.Spread | main.py:63-64 | one sample per grid point, each the energy divided by that sample's elapsed time |
| Disturbance.PowerDisturbanceCurve | main.py:62-66 | both curves have one sample per grid point |
| Disturbance.RotorEnergyCancels | main.py:49-56 | the engine's J-then-kinetic-energy formula gives K (g/f)^2 at every frequency g, for any non-zero pi |
| Disturbance.MarginsAsWritten | main.py:49-60 | the two margins computed with the engine's formulas equal the closed forms the curve uses |
| Disturbance.MarginsPositive | main.py:58-60 | for positive inertia and fmin < f < fmax both margins are positive |
| Disturbance.CurveSigns | main.py:62-66 | over a positive grid the upper curve is positive and the lower curve negative |
| Disturbance.CurveRelaxes | main.py:44-64 | both tolerance magnitudes strictly decrease as elapsed time grows |
| Disturbance.MarginsScale | main.py:49-60 | scaling the inertia by a scales both margins by a |
| Disturbance.CurveProportionalToInertia | main.py:44-46 | scaling the inertia by a scales every sample of both curves by a |
| Disturbance.KineticEnergyMonotone | main.py:55-56 | for positive inertia and frequency, kinetic energy never falls as frequency rises, and strictly grows when it strictly rises |
| Disturbance.FartherLimitLargerMargin | main.py:44-46 | moving a frequency limit farther from the present frequency never shrinks its margin, and moving it strictly farther strictly enlarges it |
| Disturbance.FartherLimitWiderCurve | main.py:44-46 | over a positive grid, moving fmin strictly lower strictly raises every upper sample, and moving fmax strictly higher strictly lowers every lower sample |
| Disturbance.MidwayCurveIsAsymmetric | main.py:55-64 | with f midway between its limits, -lower is strictly larger than upper at every sample |
| Disturbance.MidwayMarginsDiffer | main.py:55-60 | with f midway between its limits, the upper margin strictly exceeds the lower margin |
| Disturbance.Scenario | main.py:43-66 | 50 MWs at 60 Hz between 59 and 61 Hz gives margins 50*119/3600 and 50*121/3600 and a decreasing upper curve |
| Series.Zeros | main.py:18 | the zero curve of an absent asset: n samples, each 0 |
| Series.Add | main.py:72-73 | the elementwise sum: same length, each sample the sum of the two samples |
| Aggregation.Aggregate | main.py:69-74 | at each sample, aggregate Up and Down are the sums over the five envelopes of their samples |
| Aggregation.AggregateOrderIndependent | main.py:72-73 | rearranging the five envelopes leaves the aggregate unchanged |
| Aggregation.AbsentAssetLeavesAggregateUnchanged | main.py:17-74 | an absent asset in any of the five positions leaves the aggregate equal to the sum of the other four |
| Search.MaxMinDisturbance | main.py:77-87 | fails with no down crossing iff Down never drops strictly below the lower curve; fails with no up crossing iff a down crossing exists but Up never rises strictly above the upper curve; otherwise reports the curve values and times at the first crossing in each direction |
| Search.CrossingIsFirstStrictExcess | main.py:81-87 | any pair of first crossing indices determines the result exactly |
| Search.TiesAreNotCrossings | main.py:81-82 | flexibility equal to the lower curve at every sample finds no downward crossing; with a downward crossing, flexibility equal to the upper curve at every sample finds no upward crossing |

## Left out

- The Streamlit page: setup and widgets, the asset dictionaries, and the layout and
  script flow (main.py:1-10, 141-353). This is user interface, not computation.
- The figure builders (main.py:93-138). They only draw plotly charts.
- `np.linspace`: the grid is a parameter. Lemmas that need it increasing and positive
  require `IsTimeGrid`.
- IEEE double rounding: all arithmetic is on exact reals. The value of `np.pi` is a
  parameter; it cancels, as proved by `Disturbance.MarginsAsWritten`.
- numpy broadcasting. An absent asset returns the scalar 0 in the code; here it is a
  zero curve of the grid's length. The two agree sample by sample in the aggregate.
- A one-element result array from `np.argwhere(...)[0]` is modelled as the scalar sample it selects.
- The `IndexError` raised when no sample crosses. `Search.MaxMinDisturbance` returns an
  `Err` naming the direction that has no crossing instead. The downward search comes
  first, so when neither direction crosses the downward error is reported.
- Flexibility.AssetFlexibility: its own contract gives only the shape and the
  operating point. The values of the samples are stated by the AbsentAssetIsZero,
  UnlimitedEnvelopeMonotone and StorageZeroesPointwise lemmas.
- Flexibility.AssetFlexibility: requires at least two grid points for a storage asset.
  The code reads `time[1]` there and fails with an `IndexError` on a shorter grid.
- Disturbance.PowerDisturbanceCurve: requires a non-zero frequency and non-zero
  samples. Otherwise the code raises `ZeroDivisionError` or numpy produces
  infinities, neither of which is modelled. Its own contract gives only the shape, and
  no lemma restates its sample values: they are its closed-form body, margin over
  elapsed time, which `Disturbance.MarginsAsWritten` ties to the engine's J formula.
- The `Output` field of the asset envelopes is not carried into the aggregate, just as
  in the code.
