/** The sampler object of markovpy/ensemble.py: its configuration, the
    in-memory chain store and the per-iteration transition of `sample`.

    A NumPy array of shape (nwalkers, npars) is a `seq<seq<real>>` with one
    row per walker.  The in-memory chain, which the source keeps as an array
    of shape (nwalkers, npars, T), is stored here slot by slot: `chain[t]`
    is the ensemble recorded at iteration `t`, and `lnprobability[t]` the
    walkers' ln-posteriors at that iteration.

    The ln-posterior and the natural logarithm are function parameters; the
    random numbers a step consumes are a `Draws` value.
 */
module Ensemble {
  import opened Results
  import opened StretchMove

  /** `pos` holds `n` walkers of dimension `d`. */
  ghost predicate Shaped(pos: seq<seq<real>>, n: nat, d: nat) {
    |pos| == n && forall i :: 0 <= i < n ==> |pos[i]| == d
  }

  /** The walkers' state carried from one iteration to the next: positions
      and the ln-posterior at each position (`position`, `lnprob`). */
  datatype Walkers = Walkers(pos: seq<seq<real>>, lnprob: seq<real>)

  ghost predicate WalkersShaped(w: Walkers, n: nat, d: nat) {
    Shaped(w.pos, n, d) && |w.lnprob| == n
  }

  /** The random numbers one iteration draws, in the order it draws them:
      `rand(nwalkers)` for the stretch factors, `randint(nwalkers - 1)` for
      the partners and `rand(nwalkers)` for the acceptance test. */
  datatype Draws = Draws(zu: seq<real>, r: seq<nat>, acceptU: seq<real>)

  /** The draws have the ranges NumPy's generator guarantees. */
  ghost predicate DrawsFit(d: Draws, n: nat) {
    && |d.zu| == n && |d.r| == n && |d.acceptU| == n
    && (forall i :: 0 <= i < n ==> 0.0 <= d.zu[i] < 1.0)
    && (forall i :: 0 <= i < n ==> 0.0 <= d.acceptU[i] < 1.0)
    && (n >= 2 ==> forall i :: 0 <= i < n ==> d.r[i] < n - 1)
  }

  /** The sampler's fields that the modelled code reads or writes. */
  datatype Sampler = Sampler(
    nwalkers: nat,
    npars: nat,
    a: real,
    neff: int,
    fixedInds: seq<int>,
    fixedVals: seq<real>,
    chain: seq<seq<seq<real>>>,
    lnprobability: seq<seq<real>>,
    iterations: nat,
    naccepted: seq<nat>)

  /** Two samplers share their configuration (everything but the run data). */
  predicate SameConfig(s: Sampler, t: Sampler) {
    && s.nwalkers == t.nwalkers && s.npars == t.npars && s.a == t.a
    && s.neff == t.neff && s.fixedInds == t.fixedInds && s.fixedVals == t.fixedVals
  }

  /** What construction and `fix_parameters` establish about the configuration. */
  ghost predicate ConfigValid(s: Sampler) {
    && s.nwalkers > s.npars
    && |s.fixedInds| == |s.fixedVals|
    && s.neff == s.npars - |s.fixedInds|
  }

  /** The sampler invariant: the configuration is valid, each walker has a
      counter that never exceeds the iteration count, and the store has a
      slot for every recorded iteration (and possibly padding after them). */
  ghost predicate Valid(s: Sampler) {
    && ConfigValid(s)
    && |s.naccepted| == s.nwalkers
    && (forall w :: 0 <= w < s.nwalkers ==> s.naccepted[w] <= s.iterations)
    && s.iterations <= |s.chain|
    && |s.lnprobability| == |s.chain|
    && (forall t :: 0 <= t < |s.chain| ==> Shaped(s.chain[t], s.nwalkers, s.npars))
    && (forall t :: 0 <= t < |s.lnprobability| ==> |s.lnprobability[t]| == s.nwalkers)
  }

  // ---------------------------------------------------------------------------
  // Construction and bookkeeping
  // ---------------------------------------------------------------------------

  /** `EnsembleSampler(nwalkers, npars, ...)`: refuses fewer walkers than
      one more than the dimension, and starts with no fixed parameters and
      a cleared chain. */
  function New(nwalkers: nat, npars: nat, a: real): (r: Result<Sampler>)
    ensures r.Ok? <==> nwalkers > npars
    ensures r.Err? ==> r.error == TooFewWalkers
    ensures r.Ok? ==> Valid(r.value)
    ensures r.Ok? ==> r.value.nwalkers == nwalkers && r.value.npars == npars && r.value.a == a
    ensures r.Ok? ==> r.value.neff == npars && r.value.fixedInds == [] && r.value.fixedVals == []
    ensures r.Ok? ==> r.value.iterations == 0 && r.value.chain == [] && r.value.lnprobability == []
    ensures r.Ok? ==> |r.value.naccepted| == nwalkers && forall w :: 0 <= w < nwalkers ==> r.value.naccepted[w] == 0
  {
    if nwalkers <= npars then Err(TooFewWalkers)
    else Ok(ClearChain(Sampler(nwalkers, npars, a, npars, [], [], [], [], 0, [])))
  }

  /** `clear_chain`: forget the run — no iterations, no recorded slots, every
      counter zero — and keep the configuration. */
  function ClearChain(s: Sampler): (r: Sampler)
    ensures SameConfig(r, s)
    ensures r.iterations == 0 && r.chain == [] && r.lnprobability == []
    ensures |r.naccepted| == s.nwalkers && forall w :: 0 <= w < |r.naccepted| ==> r.naccepted[w] == 0
    ensures ConfigValid(s) ==> Valid(r)
  {
    s.(chain := [], lnprobability := [], iterations := 0, naccepted := seq(s.nwalkers, _ => 0))
  }

  /** `fix_parameters(inds, vals)`: the two lists must have the same length;
      the effective dimension drops by the number of fixed parameters. */
  function FixParameters(s: Sampler, inds: seq<int>, vals: seq<real>): (r: Result<Sampler>)
    ensures r.Ok? <==> |inds| == |vals|
    ensures r.Err? ==> r.error == LengthMismatch
    ensures r.Ok? ==> r.value.neff == s.npars - |inds|
    ensures r.Ok? ==> r.value.fixedInds == inds && r.value.fixedVals == vals
    ensures r.Ok? ==> r.value.nwalkers == s.nwalkers && r.value.npars == s.npars && r.value.a == s.a
    ensures r.Ok? ==> r.value.chain == s.chain && r.value.lnprobability == s.lnprobability
    ensures r.Ok? ==> r.value.iterations == s.iterations && r.value.naccepted == s.naccepted
    ensures r.Ok? && Valid(s) ==> Valid(r.value)
  {
    if |inds| != |vals| then Err(LengthMismatch)
    else Ok(s.(fixedInds := inds, fixedVals := vals, neff := s.npars - |inds|))
  }

  /** `acceptance_fraction`: each walker's accepted count over the number of
      iterations.  With no iterations NumPy divides by zero and yields NaN,
      which is `None` here. */
  function AcceptanceFraction(s: Sampler): (r: Option<seq<real>>)
    ensures r.Some? <==> s.iterations > 0
    ensures r.Some? ==> |r.value| == |s.naccepted|
    ensures r.Some? ==> forall w :: 0 <= w < |r.value| ==> r.value[w] * s.iterations as real == s.naccepted[w] as real
    ensures r.Some? && Valid(s) ==> forall w :: 0 <= w < |r.value| ==> 0.0 <= r.value[w] <= 1.0
  {
    if s.iterations == 0 then None
    else Some(seq(|s.naccepted|, w requires 0 <= w < |s.naccepted| => Ratio(s.naccepted[w], s.iterations)))
  }

  /** `k / n` as a real: times `n` it gives back `k`, and it lies in [0, 1]
      when `k <= n`. */
  function Ratio(k: nat, n: nat): (q: real)
    requires n > 0
    ensures q * n as real == k as real
    ensures k <= n ==> 0.0 <= q <= 1.0
  {
    k as real / n as real
  }

  // ---------------------------------------------------------------------------
  // Chain store
  // ---------------------------------------------------------------------------

  function Zeros(d: nat): seq<real> {
    seq(d, _ => 0.0)
  }

  function ZeroEnsemble(n: nat, d: nat): (e: seq<seq<real>>)
    ensures Shaped(e, n, d)
  {
    seq(n, _ => Zeros(d))
  }

  /** The growth before a batch of `k` iterations (`np.dstack` with zeros):
      `k` zero slots are appended and the recorded slots are kept. */
  function Pad(s: Sampler, k: nat): (r: Sampler)
    ensures SameConfig(r, s) && r.iterations == s.iterations && r.naccepted == s.naccepted
    ensures |r.chain| == |s.chain| + k && |r.lnprobability| == |s.lnprobability| + k
    ensures r.chain[..|s.chain|] == s.chain && r.lnprobability[..|s.lnprobability|] == s.lnprobability
    ensures forall t :: |s.chain| <= t < |r.chain| ==> r.chain[t] == ZeroEnsemble(s.nwalkers, s.npars)
    ensures forall t :: |s.lnprobability| <= t < |r.lnprobability| ==> r.lnprobability[t] == Zeros(s.nwalkers)
    ensures Valid(s) ==> Valid(r)
  {
    s.(chain := s.chain + seq(k, _ => ZeroEnsemble(s.nwalkers, s.npars)),
       lnprobability := s.lnprobability + seq(k, _ => Zeros(s.nwalkers)))
  }

  /** Recording the ensemble after one iteration: slot `iterations` receives
      the positions and ln-posteriors, every other slot is kept, and the
      iteration counter advances. */
  function Record(s: Sampler, w: Walkers): (r: Sampler)
    requires s.iterations < |s.chain| && s.iterations < |s.lnprobability|
    ensures SameConfig(r, s) && r.naccepted == s.naccepted
    ensures r.iterations == s.iterations + 1
    ensures |r.chain| == |s.chain| && |r.lnprobability| == |s.lnprobability|
    ensures r.chain[s.iterations] == w.pos && r.lnprobability[s.iterations] == w.lnprob
    ensures forall t :: 0 <= t < |s.chain| && t != s.iterations ==> r.chain[t] == s.chain[t]
    ensures forall t :: 0 <= t < |s.lnprobability| && t != s.iterations ==> r.lnprobability[t] == s.lnprobability[t]
  {
    s.(chain := s.chain[s.iterations := w.pos],
       lnprobability := s.lnprobability[s.iterations := w.lnprob],
       iterations := s.iterations + 1)
  }

  // ---------------------------------------------------------------------------
  // One iteration of the stretch move
  // ---------------------------------------------------------------------------

  /** `ensemble_lnposterior`: the ln-posterior of every walker, in walker
      order (the worker pool, when there is one, preserves that order). */
  function EnsembleLnPosterior(pos: seq<seq<real>>, lnpost: seq<real> -> real): (lp: seq<real>)
    ensures |lp| == |pos|
  {
    seq(|pos|, i requires 0 <= i < |pos| => lnpost(pos[i]))
  }

  /** Each walker's entry is the ln-posterior at that walker's position. */
  lemma EnsembleLnPosteriorAt(pos: seq<seq<real>>, lnpost: seq<real> -> real)
    ensures Consistent(Walkers(pos, EnsembleLnPosterior(pos, lnpost)), lnpost)
  {
  }

  /** The walkers' ln-posteriors are the ln-posterior at their positions:
      what `sample` promises of the `lnprob` it yields. */
  ghost predicate Consistent(w: Walkers, lnpost: seq<real> -> real) {
    |w.lnprob| == |w.pos| && forall i {:trigger w.lnprob[i]} :: 0 <= i < |w.pos| ==> w.lnprob[i] == lnpost(w.pos[i])
  }

  /** Every walker's partner for the integer draws `r`. */
  function Partners(n: nat, r: seq<nat>): (js: seq<nat>)
    requires |r| == n && forall i :: 0 <= i < n ==> r[i] < n - 1
    ensures |js| == n && forall i :: 0 <= i < n ==> js[i] < n && js[i] != i
  {
    seq(n, i requires 0 <= i < n => Partner(n, i, r[i]))
  }

  /** Every walker's stretch factor for the uniform draws `zu`. */
  function Stretches(a: real, zu: seq<real>): (zs: seq<real>)
    requires a != 0.0
    ensures |zs| == |zu|
  {
    seq(|zu|, i requires 0 <= i < |zu| => StretchFactor(a, zu[i]))
  }

  /** For a scale `a > 1` and draws in [0, 1), every walker's stretch lies
      in [1/a, a). */
  lemma StretchesBounded(a: real, zu: seq<real>)
    requires a > 1.0 && forall i :: 0 <= i < |zu| ==> 0.0 <= zu[i] < 1.0
    ensures forall i :: 0 <= i < |zu| ==> 1.0 / a <= Stretches(a, zu)[i] < a
  {
    forall i | 0 <= i < |zu|
      ensures 1.0 / a <= Stretches(a, zu)[i] < a
    {
      StretchFactorBounds(a, zu[i]);
    }
  }

  /** Every walker's proposal, stretched about its partner and pinned. */
  function Proposals(pos: seq<seq<real>>, d: nat, zs: seq<real>, js: seq<nat>, inds: seq<nat>, vals: seq<real>): (props: seq<seq<real>>)
    requires Shaped(pos, |pos|, d) && |zs| == |pos| && |js| == |pos|
    requires forall i :: 0 <= i < |js| ==> js[i] < |pos|
    requires |inds| == |vals| && forall k :: 0 <= k < |inds| ==> inds[k] < d
    ensures Shaped(props, |pos|, d)
    ensures forall i :: 0 <= i < |props| ==> PinnedBy(props[i], inds, vals)
  {
    seq(|pos|, i requires 0 <= i < |pos| => Pin(Propose(pos[i], pos[js[i]], zs[i]), inds, vals))
  }

  /** The Metropolis test of the stretch move: accept when
      `(neff - 1) ln z + lnp' - lnp > ln u`, that is, when the proposal's
      ln-posterior clears a threshold set by the current one, the draw and
      the stretch. */
  predicate AcceptTest(neff: int, lnz: real, newlp: real, lp: real, lnu: real) {
    (neff - 1) as real * lnz + newlp - lp > lnu
  }

  /** A proposal at least as probable as one that is accepted is accepted
      too, and a walker at least as improbable as one that accepts accepts
      too: the test is monotone in both ln-posteriors. */
  lemma AcceptTestMonotone(neff: int, lnz: real, newlp: real, newlp': real, lp: real, lp': real, lnu: real)
    requires AcceptTest(neff, lnz, newlp, lp, lnu)
    requires newlp <= newlp' && lp' <= lp
    ensures AcceptTest(neff, lnz, newlp', lp', lnu)
  {
  }

  /** The accept/reject outcome of every walker, each decided by its own
      stretch, ln-posteriors and uniform draw. */
  function Accepts(neff: int, zs: seq<real>, newlp: seq<real>, lp: seq<real>, acceptU: seq<real>, ln: real -> real): (acc: seq<bool>)
    requires |zs| == |newlp| == |lp| == |acceptU|
    ensures |acc| == |zs|
  {
    seq(|zs|, i requires 0 <= i < |zs| => AcceptTest(neff, ln(zs[i]), newlp[i], lp[i], ln(acceptU[i])))
  }

  /** Lines 370-373: every accepted walker takes its proposal and the
      proposal's ln-posterior and has its counter raised by exactly one;
      every rejected walker keeps position, ln-posterior and counter. */
  function Update(w: Walkers, nacc: seq<nat>, props: seq<seq<real>>, newlp: seq<real>, acc: seq<bool>): (r: (Walkers, seq<nat>))
    requires |w.pos| == |w.lnprob| == |nacc| == |props| == |newlp| == |acc|
    ensures |r.0.pos| == |w.pos| && |r.0.lnprob| == |w.pos| && |r.1| == |w.pos|
    ensures forall i :: 0 <= i < |acc| ==>
      if acc[i] then r.0.pos[i] == props[i] && r.0.lnprob[i] == newlp[i] && r.1[i] == nacc[i] + 1
      else r.0.pos[i] == w.pos[i] && r.0.lnprob[i] == w.lnprob[i] && r.1[i] == nacc[i]
  {
    var n := |acc|;
    (Walkers(seq(n, i requires 0 <= i < n => if acc[i] then props[i] else w.pos[i]),
             seq(n, i requires 0 <= i < n => if acc[i] then newlp[i] else w.lnprob[i])),
     seq(n, i requires 0 <= i < n => if acc[i] then nacc[i] + 1 else nacc[i]))
  }

  /** Walker `i`'s proposal for the draws `d`: stretched about the partner
      its integer draw picks, by the factor its uniform draw gives, and
      pinned in the fixed dimensions. */
  function StretchProposal(s: Sampler, inds: seq<nat>, pos: seq<seq<real>>, d: Draws, i: nat): (y: seq<real>)
    requires s.a != 0.0 && s.nwalkers >= 2 && Shaped(pos, s.nwalkers, s.npars) && DrawsFit(d, s.nwalkers) && i < s.nwalkers
    requires |inds| == |s.fixedVals| && forall k :: 0 <= k < |inds| ==> inds[k] < s.npars
    ensures |y| == s.npars && PinnedBy(y, inds, s.fixedVals)
  {
    Pin(Propose(pos[i], pos[Partner(s.nwalkers, i, d.r[i])], StretchFactor(s.a, d.zu[i])), inds, s.fixedVals)
  }

  /** The walkers' side of one iteration (lines 357-373), given the
      normalised fixed indices: returns the new walkers and counters. */
  function Move(s: Sampler, inds: seq<nat>, w: Walkers, d: Draws, lnpost: seq<real> -> real, ln: real -> real): (r: (Walkers, seq<nat>))
    requires Valid(s) && s.a != 0.0 && s.nwalkers >= 2
    requires |inds| == |s.fixedVals| && forall k :: 0 <= k < |inds| ==> inds[k] < s.npars
    requires WalkersShaped(w, s.nwalkers, s.npars) && DrawsFit(d, s.nwalkers)
    ensures WalkersShaped(r.0, s.nwalkers, s.npars) && |r.1| == s.nwalkers
    ensures forall i :: 0 <= i < s.nwalkers ==> r.1[i] == s.naccepted[i] || r.1[i] == s.naccepted[i] + 1
    ensures forall i :: 0 <= i < s.nwalkers && r.1[i] == s.naccepted[i] ==> r.0.pos[i] == w.pos[i] && r.0.lnprob[i] == w.lnprob[i]
    ensures forall i :: 0 <= i < s.nwalkers && r.1[i] != s.naccepted[i] ==> PinnedBy(r.0.pos[i], inds, s.fixedVals)
  {
    var n := s.nwalkers;
    var zs := Stretches(s.a, d.zu);
    var js := Partners(n, d.r);
    var props := Proposals(w.pos, s.npars, zs, js, inds, s.fixedVals);
    var newlp := EnsembleLnPosterior(props, lnpost);
    var acc := Accepts(s.neff, zs, newlp, w.lnprob, d.acceptU, ln);
    Update(w, s.naccepted, props, newlp, acc)
  }

  /** Each walker in one iteration: its counter rises exactly when the
      Metropolis test accepts its stretch proposal, and it then sits at that
      proposal with the ln-posterior evaluated there; otherwise it keeps
      position, ln-posterior and counter. */
  lemma MoveProposes(s: Sampler, inds: seq<nat>, w: Walkers, d: Draws, lnpost: seq<real> -> real, ln: real -> real)
    requires Valid(s) && s.a != 0.0 && s.nwalkers >= 2
    requires |inds| == |s.fixedVals| && forall k :: 0 <= k < |inds| ==> inds[k] < s.npars
    requires WalkersShaped(w, s.nwalkers, s.npars) && DrawsFit(d, s.nwalkers)
    ensures var r := Move(s, inds, w, d, lnpost, ln);
      forall i :: 0 <= i < s.nwalkers ==>
        if AcceptTest(s.neff, ln(StretchFactor(s.a, d.zu[i])), lnpost(StretchProposal(s, inds, w.pos, d, i)), w.lnprob[i], ln(d.acceptU[i]))
        then r.1[i] == s.naccepted[i] + 1 && r.0.pos[i] == StretchProposal(s, inds, w.pos, d, i) && r.0.lnprob[i] == lnpost(r.0.pos[i])
        else r.1[i] == s.naccepted[i] && r.0.pos[i] == w.pos[i] && r.0.lnprob[i] == w.lnprob[i]
  {
  }

  /** One pass of the loop body of `sample` (lines 357-393): propose,
      evaluate, accept or reject, record the ensemble at slot `iterations`
      and advance the counter.  NumPy raises when there is no other walker
      to pair with and when a fixed index is out of range. */
  function Step(s: Sampler, w: Walkers, d: Draws, lnpost: seq<real> -> real, ln: real -> real): (r: Result<(Sampler, Walkers)>)
    requires Valid(s) && s.a != 0.0 && s.iterations < |s.chain|
    requires WalkersShaped(w, s.nwalkers, s.npars) && DrawsFit(d, s.nwalkers)
    ensures r.Ok? <==> s.nwalkers >= 2 && NormIndices(s.fixedInds, s.npars).Some?
    ensures r.Err? ==> (r.error == NoPartner <==> s.nwalkers < 2)
    ensures r.Err? ==> r.error in {NoPartner, FixedIndexOutOfRange}
    ensures r.Ok? ==> Valid(r.value.0) && SameConfig(r.value.0, s)
    ensures r.Ok? ==> WalkersShaped(r.value.1, s.nwalkers, s.npars)
    ensures r.Ok? ==> r.value.0.iterations == s.iterations + 1
    ensures r.Ok? ==> r.value.0.chain == s.chain[s.iterations := r.value.1.pos]
    ensures r.Ok? ==> r.value.0.lnprobability == s.lnprobability[s.iterations := r.value.1.lnprob]
    ensures r.Ok? ==> forall i :: 0 <= i < s.nwalkers ==>
      r.value.0.naccepted[i] == s.naccepted[i] || r.value.0.naccepted[i] == s.naccepted[i] + 1
    ensures r.Ok? ==> forall i :: 0 <= i < s.nwalkers && r.value.0.naccepted[i] == s.naccepted[i] ==>
      r.value.1.pos[i] == w.pos[i] && r.value.1.lnprob[i] == w.lnprob[i]
  {
    if s.nwalkers < 2 then Err(NoPartner)
    else match NormIndices(s.fixedInds, s.npars)
      case None => Err(FixedIndexOutOfRange)
      case Some(inds) =>
        var (w', nacc) := Move(s, inds, w, d, lnpost, ln);
        Ok((Record(s.(naccepted := nacc), w'), w'))
  }

  /** The fixed dimensions of every walker hold their pinned values. */
  ghost predicate FixedHeld(s: Sampler, pos: seq<seq<real>>) {
    && |s.fixedInds| == |s.fixedVals|
    && NormIndices(s.fixedInds, s.npars).Some?
    && forall i :: 0 <= i < |pos| ==> PinnedBy(pos[i], NormIndices(s.fixedInds, s.npars).value, s.fixedVals)
  }

  /** A step keeps the fixed dimensions pinned: accepted walkers take pinned
      proposals, rejected ones keep their pinned positions. */
  lemma StepKeepsFixed(s: Sampler, w: Walkers, d: Draws, lnpost: seq<real> -> real, ln: real -> real)
    requires Valid(s) && s.a != 0.0 && s.iterations < |s.chain|
    requires WalkersShaped(w, s.nwalkers, s.npars) && DrawsFit(d, s.nwalkers)
    requires FixedHeld(s, w.pos)
    ensures Step(s, w, d, lnpost, ln).Ok? ==> FixedHeld(s, Step(s, w, d, lnpost, ln).value.1.pos)
  {
    if s.nwalkers >= 2 {
      var inds := NormIndices(s.fixedInds, s.npars).value;
      var r := Move(s, inds, w, d, lnpost, ln);
      assert Step(s, w, d, lnpost, ln).value.1 == r.0;
    }
  }

  /** What one successful iteration does to each walker: its counter rises
      exactly when the Metropolis test accepts its stretch proposal, an
      accepted walker moves to that proposal and carries the ln-posterior
      evaluated there, and a rejected walker keeps its position and
      ln-posterior. */
  lemma StepProposes(s: Sampler, w: Walkers, d: Draws, lnpost: seq<real> -> real, ln: real -> real, s': Sampler, w': Walkers)
    requires Valid(s) && s.a != 0.0 && s.iterations < |s.chain|
    requires WalkersShaped(w, s.nwalkers, s.npars) && DrawsFit(d, s.nwalkers)
    requires Step(s, w, d, lnpost, ln) == Ok((s', w'))
    ensures s.nwalkers >= 2 && NormIndices(s.fixedInds, s.npars).Some?
    ensures var inds := NormIndices(s.fixedInds, s.npars).value;
      forall i :: 0 <= i < s.nwalkers ==>
        if AcceptTest(s.neff, ln(StretchFactor(s.a, d.zu[i])), lnpost(StretchProposal(s, inds, w.pos, d, i)), w.lnprob[i], ln(d.acceptU[i]))
        then s'.naccepted[i] == s.naccepted[i] + 1 && w'.pos[i] == StretchProposal(s, inds, w.pos, d, i) && w'.lnprob[i] == lnpost(w'.pos[i])
        else s'.naccepted[i] == s.naccepted[i] && w'.pos[i] == w.pos[i] && w'.lnprob[i] == w.lnprob[i]
  {
    var inds := NormIndices(s.fixedInds, s.npars).value;
    var r := Move(s, inds, w, d, lnpost, ln);
    MoveProposes(s, inds, w, d, lnpost, ln);
    assert w' == r.0 && s'.naccepted == r.1;
  }

  /** An iteration keeps the ln-posteriors in step with the positions: if
      every walker's ln-posterior is the one at its position before, so it
      is after. */
  lemma StepKeepsLnProb(s: Sampler, w: Walkers, d: Draws, lnpost: seq<real> -> real, ln: real -> real)
    requires Valid(s) && s.a != 0.0 && s.iterations < |s.chain|
    requires WalkersShaped(w, s.nwalkers, s.npars) && DrawsFit(d, s.nwalkers)
    requires Consistent(w, lnpost)
    ensures Step(s, w, d, lnpost, ln).Ok? ==> Consistent(Step(s, w, d, lnpost, ln).value.1, lnpost)
  {
    if s.nwalkers >= 2 && NormIndices(s.fixedInds, s.npars).Some? {
      var inds := NormIndices(s.fixedInds, s.npars).value;
      var r := Move(s, inds, w, d, lnpost, ln);
      MoveProposes(s, inds, w, d, lnpost, ln);
      assert Step(s, w, d, lnpost, ln).value.1 == r.0;
    }
  }

  // ---------------------------------------------------------------------------
  // Batches of iterations
  // ---------------------------------------------------------------------------

  /** The loop of `sample` over the draws `ds`, one iteration per draw
      record: returns the final sampler and the walkers yielded after each
      iteration.  The first failing iteration aborts the batch. */
  function Run(s: Sampler, w: Walkers, ds: seq<Draws>, lnpost: seq<real> -> real, ln: real -> real): (r: Result<(Sampler, seq<Walkers>)>)
    requires Valid(s) && s.a != 0.0 && s.iterations + |ds| <= |s.chain|
    requires WalkersShaped(w, s.nwalkers, s.npars)
    requires forall k :: 0 <= k < |ds| ==> DrawsFit(ds[k], s.nwalkers)
    ensures r.Ok? <==> |ds| == 0 || (s.nwalkers >= 2 && NormIndices(s.fixedInds, s.npars).Some?)
    ensures r.Ok? ==> Valid(r.value.0) && SameConfig(r.value.0, s)
    ensures r.Ok? ==> r.value.0.iterations == s.iterations + |ds| && |r.value.0.chain| == |s.chain|
    ensures r.Ok? ==> |r.value.1| == |ds| && forall t :: 0 <= t < |ds| ==> WalkersShaped(r.value.1[t], s.nwalkers, s.npars)
    decreases |ds|
  {
    if |ds| == 0 then Ok((s, []))
    else match Step(s, w, ds[0], lnpost, ln)
      case Err(e) => Err(e)
      case Ok((s1, w1)) =>
        match Run(s1, w1, ds[1..], lnpost, ln)
        case Err(e) => Err(e)
        case Ok((s2, trace)) => Ok((s2, [w1] + trace))
  }

  /** `sample(position0, lnprob, randomstate, iterations=...)` consumed for
      `|ds|` of its `iterations` items.  `sample` is a generator, so its body
      only starts on the first item: a generator never advanced changes
      nothing.  Once started, the initial ln-posteriors are evaluated when
      none are given, the chain grows by `iterations` zero slots, and each
      consumed item is one iteration. */
  function Sample(s: Sampler, pos0: seq<seq<real>>, lnprob0: Option<seq<real>>, iterations: nat, ds: seq<Draws>,
                  lnpost: seq<real> -> real, ln: real -> real): (r: Result<(Sampler, seq<Walkers>)>)
    requires Valid(s) && s.a != 0.0 && |ds| <= iterations
    requires Shaped(pos0, s.nwalkers, s.npars)
    requires lnprob0.Some? ==> |lnprob0.value| == s.nwalkers
    requires forall k :: 0 <= k < |ds| ==> DrawsFit(ds[k], s.nwalkers)
    ensures r.Ok? <==> |ds| == 0 || (s.nwalkers >= 2 && NormIndices(s.fixedInds, s.npars).Some?)
    ensures r.Ok? ==> Valid(r.value.0) && SameConfig(r.value.0, s)
    ensures |ds| == 0 ==> r == Ok((s, []))
    ensures r.Ok? ==> r.value.0.iterations == s.iterations + |ds|
    ensures r.Ok? ==> |r.value.0.chain| == |s.chain| + (if |ds| > 0 then iterations else 0)
    ensures r.Ok? ==> |r.value.1| == |ds| && forall t :: 0 <= t < |ds| ==> WalkersShaped(r.value.1[t], s.nwalkers, s.npars)
  {
    if |ds| == 0 then Ok((s, []))
    else
      var lp := if lnprob0.None? then EnsembleLnPosterior(pos0, lnpost) else lnprob0.value;
      Run(Pad(s, iterations), Walkers(pos0, lp), ds, lnpost, ln)
  }

  /** `run_mcmc`: drive `sample` for all `|ds|` iterations and return the
      last walkers it yielded.  With zero iterations the loop variable is
      never bound and Python raises UnboundLocalError. */
  function RunMcmc(s: Sampler, pos0: seq<seq<real>>, lnprob0: Option<seq<real>>, ds: seq<Draws>,
                   lnpost: seq<real> -> real, ln: real -> real): (r: Result<(Sampler, Walkers)>)
    requires Valid(s) && s.a != 0.0
    requires Shaped(pos0, s.nwalkers, s.npars)
    requires lnprob0.Some? ==> |lnprob0.value| == s.nwalkers
    requires forall k :: 0 <= k < |ds| ==> DrawsFit(ds[k], s.nwalkers)
    ensures r.Err? && |ds| == 0 ==> r.error == UnboundLocal
    ensures r.Ok? <==> |ds| > 0 && s.nwalkers >= 2 && NormIndices(s.fixedInds, s.npars).Some?
    ensures r.Ok? ==> Valid(r.value.0) && r.value.0.iterations == s.iterations + |ds|
    ensures r.Ok? ==> WalkersShaped(r.value.1, s.nwalkers, s.npars)
  {
    match Sample(s, pos0, lnprob0, |ds|, ds, lnpost, ln)
    case Err(e) => Err(e)
    case Ok((s1, trace)) =>
      if |trace| == 0 then Err(UnboundLocal) else Ok((s1, trace[|trace| - 1]))
  }
}
