# The markovpy ensemble sampler, modelled in Dafny

This project models the core of `markovpy/ensemble.py`. That file implements the
affine-invariant ensemble sampler of Goodman & Weare.

- An ensemble of `nwalkers` walkers moves through an `npars`-dimensional parameter space.
- Each iteration of `sample` gives every walker a partner and a stretch factor.
- The walker's proposal is the point on the line through the walker and its partner, at that stretch.
- The fixed parameters of every proposal are pinned to their values.
- A proposal is accepted by a Metropolis test on `(neff - 1) ln z + lnp' - lnp`.
- After each iteration the ensemble is recorded in the sampler's chain store.
- `_clustering` is a repair routine for walkers trapped in a low-probability cluster. It ranks the walkers, splits off the low ones at a gap in ln-posterior, and redraws those from a Gaussian fitted to the rest.

Positions are mathematical reals. The ln-posterior, the natural logarithm, the square root and all
random draws are parameters. Errors that Python raises are `Err` values of the `Result` type.

| file | module | contents |
|---|---|---|
| `results.dfy` | `Results` | the error kinds, `Option` and `Result` |
| `stretch.dfy` | `StretchMove` | partner choice, stretch factor, proposal, fixed-index pinning |
| `ensemble.dfy` | `Ensemble` | the sampler state and its invariant, construction, `clear_chain`, `fix_parameters`, `acceptance_fraction`, one iteration (`Step`), a batch (`Run`, `Sample`) and `run_mcmc` |
| `records.dfy` | `Records` | what a batch writes into the chain store, and what it leaves alone |
| `batching.dfy` | `Batching` | properties of `clear_chain`, splitting a batch in two, fixed parameters staying fixed |
| `clustering.dfy` | `Clustering` | `_clustering`: ranking, the split, the Gaussian fit, the rescue loop, and the routine as written |
| `lnprob_store.dfy` | `LnProbStore` | the in-memory ln-probability store as written |

The chain store is indexed by iteration. `chain[t]` is the ensemble recorded at iteration `t`, and
`lnprobability[t]` is the walkers' ln-posteriors at that iteration. The source keeps the same data
as arrays of shape (nwalkers, npars, T) and (nwalkers, T).

## Model

| member | source | states |
|---|---|---|
| StretchMove.Partner | markovpy/ensemble.py:359-361 | a draw `r` in [0, n - 2] picks a partner in range, never the walker itself, namely `r` or `r + 1` |
| StretchMove.PartnerBijection | markovpy/ensemble.py:359-361 | the draw-to-partner map is a bijection from [0, n - 1) onto the other walkers, so a uniform draw gives a uniform partner |
| StretchMove.StretchFactorBounds | markovpy/ensemble.py:357 | for `a > 1` and `u` in [0, 1), the stretch `z` lies in [1/a, a) and is positive |
| StretchMove.StretchFactorUnit | markovpy/ensemble.py:357 | with `a = 1` the stretch is 1 |
| StretchMove.StretchFactorPreimage | markovpy/ensemble.py:357 | for `a > 1` and `t` in [1, a), the draw `(t - 1) / (a - 1)` lies in [0, 1) and has the stretch `t^2 / a`, so every point of [1/a, a) is the stretch of some draw |
| StretchMove.StretchFactorMonotone | markovpy/ensemble.py:357 | for `a > 1` the stretch grows strictly with the draw, so with StretchFactorBounds it maps [0, 1) one to one into [1/a, a) |
| StretchMove.Propose | markovpy/ensemble.py:364-365 | the proposal has the walker's dimension; at `z = 1` it is the walker's own position, at `z = 0` the partner's |
| StretchMove.ProposalAffineInvariant | markovpy/ensemble.py:364-365 | proposing between the images of two walkers under an affine map gives the image of the proposal |
| StretchMove.NormIndex | markovpy/ensemble.py:366 | a fixed index is valid exactly in [-d, d); a negative one counts from the end |
| StretchMove.NormIndices | markovpy/ensemble.py:366 | the fixed indices normalise exactly when each of them does, index by index |
| StretchMove.Pin | markovpy/ensemble.py:366 | pinning leaves the other coordinates alone and holds each fixed value that is not overwritten by a later one |
| StretchMove.PinFixpoint | markovpy/ensemble.py:366 | pinning a vector that already holds its fixed values changes nothing |
| Ensemble.New | markovpy/ensemble.py:135-150 | construction succeeds exactly when `nwalkers > npars`, with no fixed parameters, `neff = npars`, empty stores and all counters zero |
| Ensemble.ClearChain | markovpy/ensemble.py:164-167 | no iterations, an empty store and all counters zero; the configuration is kept and the sampler invariant restored |
| Ensemble.FixParameters | markovpy/ensemble.py:484-488 | succeeds exactly when the two lists have equal length, and then `neff = npars - len(inds)` with the given lists stored, keeping the invariant and leaving chain, ln-probability store, iteration count and counters unchanged |
| Ensemble.AcceptanceFraction | markovpy/ensemble.py:419 | each fraction times the iteration count is the walker's accepted count, and for a valid sampler each lies in [0, 1] |
| Ensemble.Pad | markovpy/ensemble.py:350-353 | a batch adds `k` slots to the chain and to the ln-probability store, each new slot all zeros, and keeps every recorded slot |
| Ensemble.Record | markovpy/ensemble.py:385-393 | slot `iterations` receives the ensemble (line 385) and its ln-posteriors, every other slot is kept, and the iteration counter advances by one (line 393); the ln-posterior write is the corrected form of lines 386-387, see Findings |
| Ensemble.EnsembleLnPosterior | markovpy/ensemble.py:225-230 | one ln-posterior per walker, in walker order |
| Ensemble.EnsembleLnPosteriorAt | markovpy/ensemble.py:225-230 | entry `i` of the result is the ln-posterior at walker `i`'s position |
| Ensemble.Partners | markovpy/ensemble.py:359-361 | every walker gets a partner in range other than itself |
| Ensemble.StretchesBounded | markovpy/ensemble.py:357 | for `a > 1` and draws in [0, 1), every walker's stretch lies in [1/a, a) |
| Ensemble.StretchProposal | markovpy/ensemble.py:357-366 | walker `i`'s proposal, stretched about the partner its draw picks, has the walkers' dimension and holds the fixed values |
| Ensemble.AcceptTestMonotone | markovpy/ensemble.py:368-369 | a proposal at least as probable as an accepted one is accepted, from a walker at most as probable |
| Ensemble.Proposals | markovpy/ensemble.py:364-366 | every proposal has the ensemble's shape and holds the fixed values |
| Ensemble.Update | markovpy/ensemble.py:369-373 | an accepted walker takes the proposal and its ln-posterior, and its counter rises by exactly one; a rejected walker keeps position, ln-posterior and counter |
| Ensemble.Move | markovpy/ensemble.py:357-373 | shapes are kept; each counter rises by at most one; a walker whose counter did not rise is unchanged, and one whose counter rose holds the fixed values |
| Ensemble.MoveProposes | markovpy/ensemble.py:357-373 | a walker's counter rises exactly when the Metropolis test of lines 368-369 accepts its pinned stretch proposal; it then sits at that proposal with the ln-posterior evaluated there, and otherwise keeps position, ln-posterior and counter |
| Ensemble.Step | markovpy/ensemble.py:357-393 | fails exactly with fewer than two walkers or an out-of-range fixed index; otherwise it keeps the invariant, writes slot `iterations`, advances the counter by one, and raises counters by at most one, for accepted walkers only |
| Ensemble.StepProposes | markovpy/ensemble.py:357-393 | after a successful iteration each walker has moved to its stretch proposal, with the ln-posterior there and its counter raised, exactly when the Metropolis test accepts, and is otherwise unchanged |
| Ensemble.StepKeepsLnProb | markovpy/ensemble.py:367-373 | if every walker's ln-posterior is the one at its position before an iteration, the same holds after it |
| Ensemble.StepKeepsFixed | markovpy/ensemble.py:364-373 | if the walkers hold the fixed values before an iteration, they hold them after it |
| Ensemble.Run | markovpy/ensemble.py:356-394 | a batch fails exactly when its first step would; otherwise it keeps the invariant and advances the counter by the number of iterations, yielding one ensemble per iteration |
| Ensemble.Sample | markovpy/ensemble.py:323-394 | a generator never advanced changes nothing; once advanced, the store grows by `iterations` slots; the call fails exactly when its first step would, and otherwise advances the counter by one per draw record and yields one ensemble per iteration; Records.SampleRecords and Batching.SampleKeepsLnProb state what it records |
| Ensemble.RunMcmc | markovpy/ensemble.py:275-279 | fails exactly when the batch is empty (the loop variable is unbound) or its first step fails; otherwise the counter advances by the number of iterations; Batching.RunMcmcLast states what it returns |
| Records.RunKeeps | markovpy/ensemble.py:385 | a run leaves alone every slot before `iterations` and every slot after the ones it records |
| Records.RunSlot | markovpy/ensemble.py:385-394 | the ensemble yielded after iteration `t` of a run is what slot `iterations + t` holds |
| Records.RunRecords | markovpy/ensemble.py:385-394 | a run records each yielded ensemble in its own slot and leaves every other slot alone |
| Records.SampleRecords | markovpy/ensemble.py:350-394 | after `sample`, chain and ln-probability store have the same length, grown by `iterations` once the generator has been advanced, slot `iterations + t` holds the `t`-th yielded ensemble, and earlier slots are kept |
| Records.SampleKeepsOld | markovpy/ensemble.py:350-353 | `sample` leaves the slots recorded before the call alone |
| Records.RunRecordsFrom | markovpy/ensemble.py:385-394 | every ensemble a run yields is in the slot its iteration number gives |
| Records.PaddedRunRecords | markovpy/ensemble.py:350-394 | after padding and a run, slot `iterations + t` holds the `t`-th yield and the earlier slots are kept |
| Batching.ClearChainForgetsRun | markovpy/ensemble.py:164-167 | two samplers with the same configuration are equal after `clear_chain`, whatever their runs were |
| Batching.ClearChainIdempotent | markovpy/ensemble.py:164-167 | clearing twice is clearing once |
| Batching.RunSplit | markovpy/ensemble.py:356-394 | running `ds1 + ds2` is running `ds1` and then `ds2` from where the first part stopped |
| Batching.PaddedRunBatching | markovpy/ensemble.py:350-394 | padding for both parts at once and running both equals padding and running the first part, then padding and running the second |
| Batching.SampleBatching | markovpy/ensemble.py:323-394 | one `sample` call of `a + b` iterations equals a call of `a` iterations followed by a call of `b` resumed from its last yield |
| Batching.RunKeepsFixed | markovpy/ensemble.py:364-373 | if the starting positions hold the fixed values, so does every ensemble a run yields |
| Batching.SampleKeepsFixed | markovpy/ensemble.py:364-385 | provided the starting positions hold the fixed values, every slot a `sample` call records holds them |
| Batching.RunRejectsAll | markovpy/ensemble.py:368-373 | with `neff = 0`, a flat ln-posterior carried by the walkers and a constant logarithm `c >= 0`, the test reads `-c > c`, so the first yield keeps the starting positions |
| Batching.SampleRecordsUnpinnedStart | markovpy/ensemble.py:323-385 | the hypothesis of SampleKeepsFixed is needed: two walkers at 0 and 1 with their one dimension fixed to 5, and every proposal rejected, give a slot 0 that records the unpinned start |
| Batching.RunKeepsLnProb | markovpy/ensemble.py:356-394 | a run that starts from walkers whose ln-posteriors belong to their positions yields only such ensembles |
| Batching.StartConsistent | markovpy/ensemble.py:326-327 | when no ln-posteriors are passed in, `sample` starts from the ones evaluated at the starting positions |
| Batching.RunRecordsConsistent | markovpy/ensemble.py:367-394 | such a run also records, in every slot it writes, ln-posteriors that belong to that slot's positions |
| Batching.SampleKeepsLnProb | markovpy/ensemble.py:323-394 | when no ln-posteriors are passed in, or the ones passed in belong to the starting positions, every ensemble `sample` yields and every slot it records carries the ln-posteriors of its own positions |
| Batching.RunLast | markovpy/ensemble.py:385-394 | a run of at least one iteration records its last yield in the slot just below its new iteration count |
| Batching.SampleLast | markovpy/ensemble.py:385-394 | the last ensemble a `sample` call yields is in the last slot it records, and is consistent when the starting ln-posteriors are |
| Batching.RunMcmcLast | markovpy/ensemble.py:275-279 | `run_mcmc` returns the positions and ln-posteriors of the last recorded slot, which belong together when the starting ln-posteriors do |
| Clustering.Insert | markovpy/ensemble.py:499 | inserting a new walker into a ranked list keeps it ranked and adds exactly that walker |
| Clustering.RankDescending | markovpy/ensemble.py:499 | the ranking lists every walker once, from the highest ln-posterior down |
| Clustering.MeansAround | markovpy/ensemble.py:502-504 | in a ranking, each walker's ln-posterior lies between the mean of those above it and the mean of those below it |
| Clustering.StuckBelowMidpoint | markovpy/ensemble.py:505 | a walker is stuck (closer to the mean below it than to the mean above it, the condition of lines 505 and 528) exactly when its ln-posterior is below the midpoint of the two means |
| Clustering.GapAtBelowBig | markovpy/ensemble.py:502-505 | the walker at rank `i` is stuck exactly when its ln-posterior is below the midpoint of the means above and below it, and then it lies between the two means |
| Clustering.ScanFrom | markovpy/ensemble.py:501-506 | the loop stops at the first rank below `n - 1` whose walker is stuck, or falls through to `n - 1`, and keeps the means of its last evaluated rank |
| Clustering.FindSplit | markovpy/ensemble.py:501-510 | fewer than three walkers leave `big_mean` unbound; otherwise the split lies in [1, n - 1] and is the first stuck rank |
| Clustering.GoodAboveBad | markovpy/ensemble.py:509-510 | every good walker's ln-posterior is at least every bad walker's |
| Clustering.ColumnVariances | markovpy/ensemble.py:525 | one population variance per coordinate, each non-negative |
| Clustering.Fit | markovpy/ensemble.py:524-525 | the fitted Gaussian has one centre and one spread per coordinate |
| Clustering.FitOfCopies | markovpy/ensemble.py:524-525 | good walkers that share one position fit a Gaussian centred there with zero variance |
| Clustering.Candidate | markovpy/ensemble.py:529 | a redraw has the Gaussian's dimension and equals the centre wherever the spread is zero |
| Clustering.StartLnProb | markovpy/ensemble.py:496-497 | without given ln-posteriors, each walker's is evaluated at its position |
| Clustering.Rescue | markovpy/ensemble.py:527-530 | afterwards no bad walker is stuck; walkers outside the bad ones are unchanged; a changed walker sits at a redraw with its ln-posterior evaluated there; enough redraws, none of them stuck, guarantee success |
| Clustering.Prepare | markovpy/ensemble.py:495-525 | below three walkers it fails with an unbound local; otherwise the plan has one rank per walker, a split in [1, n - 1] and a Gaussian of the walkers' dimension |
| Clustering.PrepareRanks | markovpy/ensemble.py:499-510 | the plan's ranking is a permutation of the walkers from the highest ln-posterior down, split at the first stuck rank |
| Clustering.RescuePlan | markovpy/ensemble.py:509-530 | the bad walkers are the ranks from the split down, and the rescue guarantees hold for them |
| Clustering.Cluster | markovpy/ensemble.py:495-532 | good and bad walkers partition the walkers, both are non-empty, and none of the bad ranks above a good one; after the rescue no bad walker is stuck and the good ones are untouched |
| Clustering.ClusterAsWritten | markovpy/ensemble.py:495-532 | the source's routine raises TypeError whenever it evaluates a posterior, and otherwise returns its inputs unchanged |
| Clustering.ClusterAsWrittenOnlyFlat | markovpy/ensemble.py:501-530 | the routine as written returns only when every walker has the same ln-posterior |
| Clustering.ClusterAsWrittenRejectsOutlier | markovpy/ensemble.py:527-530 | with ln-posteriors 0, 0 and -10^6 the routine as written raises TypeError |
| LnProbStore.AppendAll | markovpy/ensemble.py:386-387 | appending the steps' columns adds one column per step and keeps the old columns |
| LnProbStore.AppendAllConcat | markovpy/ensemble.py:386-387 | appending the steps' columns one by one puts them after the old columns, in order |
| LnProbStore.SampleStoreAsWritten | markovpy/ensemble.py:350-387 | a batch adds `iterations` zero columns and then one column per step |
| LnProbStore.SampleStoreAsWrittenMisaligned | markovpy/ensemble.py:350-387 | after a full batch the store as written has `iterations` more columns than the chain has slots, and the first new slot's column is zero instead of the first step's ln-posteriors |
| LnProbStore.SampleStoreAsWrittenOneStep | markovpy/ensemble.py:352-387 | one step of two walkers from an empty store gives two columns, the first of them zero |

## Left out

- Random number generation: the draws are inputs, one `Draws` record per iteration. `set_state`, `seed` and `get_state` are not modelled, and neither is the generator state that `sample` and `_clustering` yield.
- Floating point: positions, ln-posteriors and stretch factors are reals. NaN, infinities and rounding are not modelled. `ln` and `sqrt` are uninterpreted functions.
- Ensemble.Stretches: a scale `a = 0` divides by zero in the source; the model requires `a != 0`.
- Ensemble.AcceptanceFraction: with zero iterations NumPy yields NaN (and a warning); the model returns `None`.
- The multiprocessing pool and the pickling wrapper are not modelled. `EnsembleLnPosterior` evaluates the walkers in order, which is what `map` and `Pool.map` return.
- File output is not modelled: the HDF5 store, its resize and read-back, and `_write_step`'s ASCII output. The model keeps the in-memory store only.
- The `print` warnings are left out.
- `get_chain` and `get_lnprobability` only return the stores, so they are left out.
- Ensemble.Sample: `position0` is copied, but the `lnprob` array passed in is updated in place and aliased by every yield. The model treats it as a value.
- Ensemble.Sample: `lnprob == None` is modelled as `None` meaning "not given". This compares an array against `None`, which NumPy versions disagree on.
- Batching.SampleKeepsFixed: the source never pins `position0` (line 323 copies it, line 366 pins only the proposals), so a walker whose proposals are rejected is recorded unpinned. The property holds only for starting positions that already hold the fixed values, and Batching.SampleRecordsUnpinnedStart shows a start for which it fails.
- Ensemble.Sample: the model treats one `sample` call as an uninterrupted run. The source's generator lets the caller call other sampler methods between two yields. A `clear_chain` there makes the next step raise `self._naccepted[accept] += 1` at line 373 before the IndexError at line 385, leaving a counter above the iteration count, outside the sampler invariant `Valid`. A `fix_parameters` there changes lines 366 and 368 for the rest of the batch.
- Ensemble.Sample: an integer-typed `lnprob` array is truncated by the write at line 371. The model's ln-posteriors are reals, so this does not arise.
- Clustering.Cluster: the source writes each redraw into the caller's `position` and `lnprob` arrays (lines 529-530). The model returns new sequences and leaves its inputs alone.
- Clustering.StartLnProb: `lnprob == None` at line 496 of `_clustering` compares an array against `None` as `sample` does, with the same NumPy ambiguity; the model reads `None` as "not given".
- Ensemble.Sample: a Python list passed as `lnprob` fails at the boolean-mask write of line 371. The model accepts any sequence of the right length.
- Ensemble.FixParameters: `fix_parameters([], [])` stores `np.array([])`, which is a float array (line 486), and the fancy assignment at line 366 then raises IndexError. The model stores the empty sequence, so its steps succeed. The constructor's empty list (line 143) indexes correctly.
- StretchMove.Pin: NumPy does not guarantee which write wins when a fixed index is repeated in a fancy assignment (line 366). Pin and PinnedBy choose the last write.
- Ensemble.Run models the batch only up to the draws consumed. A generator stopped early is a prefix of the batch; `Sample` allows fewer draws than `iterations`. A generator never advanced runs none of its body, so `Sample` with no draws returns the sampler unchanged.
- Ensemble.Record: it writes the step's ln-posteriors into slot `iterations`, the corrected form of lines 386-387 (see Findings). The store as written is LnProbStore.SampleStoreAsWritten. Step, Run, Sample, the Records module and the Batching module, SampleBatching included, describe the corrected store; they do not hold for the store as written.
- Ensemble.Sample: the source yields the same position array after every iteration (lines 372 and 394), so a caller that keeps the yields sees them change later. The model yields a fresh value each time.
- Ensemble.Sample: for an integer-typed `position0` the copy at line 323 is integer-typed, so line 372 truncates an accepted proposal while line 371 stores the ln-posterior of the untruncated point. The model's positions are reals, so this does not arise.
- Ensemble.Sample: on an error the model returns only the error. In the source the store has already been padded with zeros (lines 350-353) when the first step raises (lines 359 and 366), and that padding stays.
- Ensemble.Sample: the ln-posterior is a total function. An exception raised by it (lines 327 and 367) is not modelled.
- Ensemble.Sample: a negative `iterations` makes NumPy raise ValueError at line 351. The model's `iterations` is a natural number, so that case is excluded.
- Ensemble.EnsembleLnPosterior, Ensemble.Stretches, Ensemble.Accepts and Ensemble.AcceptTest: their per-walker facts are stated in separate lemmas (EnsembleLnPosteriorAt, StretchesBounded, MoveProposes, AcceptTestMonotone) rather than on the functions themselves.
- Clustering.RankDescending: `np.argsort` uses an unstable sort, so the order of tied walkers is unspecified. The model breaks ties by descending index, the reverse of a stable ascending sort.
- Clustering.Rescue: the source redraws a stuck walker without bound. The model draws from a finite list of standard normal vectors and returns `DrawsExhausted` when the list runs out.
- Clustering.Cluster: in the source, when `nwalkers` differs from the number of rows in `position`, the two are used inconsistently. The model takes the walkers to be the rows.
- Clustering.ClusterAsWritten: the source writes the redraw into the caller's array before the call that raises. The model returns only the error.
- Errors are values: a step that fails with `NoPartner` or `FixedIndexOutOfRange` has, in the source, already consumed random draws.

## Findings

| source | as written | input that shows it | evidently intended | confidence | as-written member | corrected member |
|---|---|---|---|---|---|---|
| markovpy/ensemble.py:386-387 | after padding the store with zero columns for the batch, each step appends another column | one step of two walkers with ln-posteriors -1 and -2 from an empty store gives the columns `[0, 0]` and `[-1, -2]` for one chain slot | write the step's ln-posteriors into column `_iterations`, as line 385 does for the chain | not executed; high | LnProbStore.SampleStoreAsWritten (shown by LnProbStore.SampleStoreAsWrittenOneStep) | Records.SampleRecords |
| markovpy/ensemble.py:530 | the rescue loop calls the ln-posterior with `(position[k], self.postargs)`, but the wrapper built at line 129 (or line 47) takes the position alone; line 497 does the same | ln-posteriors 0, 0 and -10^6 make the third walker bad and stuck, so the first redraw raises TypeError | call `self._lnposteriorfn(position[k])` | not executed; high | Clustering.ClusterAsWritten (shown by Clustering.ClusterAsWrittenRejectsOutlier) | Clustering.Cluster |
