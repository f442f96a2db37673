/** The in-memory ln-probability store of markovpy/ensemble.py as written.

    Before a batch of `iterations` steps, `sample` pads the store with that
    many zero columns (lines 352-353), as it pads the chain (lines 350-351).
    After each step it does not write the padded column at `_iterations`, as
    it does for the chain (line 385), but appends one more column (lines
    386-387).  The store therefore ends a batch with twice as many new
    columns as the chain has new slots, and the ln-posteriors of the batch
    sit after the zeros instead of in them.

    The store is kept column by column, as `Sampler.lnprobability` is:
    column `t` is the walkers' ln-posteriors for chain slot `t`.
 */
module LnProbStore {
  import opened Results
  import opened Ensemble
  import opened Records

  /** The ln-posteriors of each yielded ensemble, in order. */
  function LnProbs(trace: seq<Walkers>): (cols: seq<seq<real>>)
    ensures |cols| == |trace| && forall t :: 0 <= t < |trace| ==> cols[t] == trace[t].lnprob
  {
    seq(|trace|, t requires 0 <= t < |trace| => trace[t].lnprob)
  }

  /** Lines 386-387, one step after another: each step appends its
      ln-posteriors as a new last column. */
  function AppendAll(store: seq<seq<real>>, cols: seq<seq<real>>): (r: seq<seq<real>>)
    ensures |r| == |store| + |cols| && r[..|store|] == store
    decreases |cols|
  {
    if |cols| == 0 then store else AppendAll(store + [cols[0]], cols[1..])
  }

  /** Appending the columns one at a time leaves the old columns in front
      and the new ones after them, in order. */
  lemma {:induction false} AppendAllConcat(store: seq<seq<real>>, cols: seq<seq<real>>)
    ensures AppendAll(store, cols) == store + cols
    decreases |cols|
  {
    if |cols| > 0 {
      AppendAllConcat(store + [cols[0]], cols[1..]);
      assert store + [cols[0]] + cols[1..] == store + cols;
    }
  }

  /** The store after a batch of `iterations` steps that yielded `trace`, as
      written: zero padding for the whole batch, then one appended column
      per step.  The batch adds `iterations + |trace|` columns, the first
      `iterations` of them zero and the steps' ln-posteriors after them. */
  function SampleStoreAsWritten(store: seq<seq<real>>, nwalkers: nat, iterations: nat, trace: seq<Walkers>): (r: seq<seq<real>>)
    ensures |r| == |store| + iterations + |trace|
    ensures r[..|store|] == store
    ensures forall k :: |store| <= k < |store| + iterations ==> r[k] == Zeros(nwalkers)
    ensures forall k :: |store| + iterations <= k < |r| ==> r[k] == trace[k - |store| - iterations].lnprob
  {
    var padded := store + seq(iterations, _ => Zeros(nwalkers));
    AppendAllConcat(padded, LnProbs(trace));
    AppendAll(padded, LnProbs(trace))
  }

  /** A full batch run with the store as written: the chain gains
      `iterations` slots but the ln-probability store gains twice as many
      columns, and the column of the batch's first slot holds zeros where
      the recorded store holds the first step's ln-posteriors. */
  lemma SampleStoreAsWrittenMisaligned(s: Sampler, pos0: seq<seq<real>>, lnprob0: Option<seq<real>>, ds: seq<Draws>,
                                      lnpost: seq<real> -> real, ln: real -> real, s': Sampler, trace: seq<Walkers>)
    requires Valid(s) && s.a != 0.0 && |ds| > 0 && s.iterations == |s.chain|
    requires Shaped(pos0, s.nwalkers, s.npars)
    requires lnprob0.Some? ==> |lnprob0.value| == s.nwalkers
    requires forall k :: 0 <= k < |ds| ==> DrawsFit(ds[k], s.nwalkers)
    requires Sample(s, pos0, lnprob0, |ds|, ds, lnpost, ln) == Ok((s', trace))
    ensures var r := SampleStoreAsWritten(s.lnprobability, s.nwalkers, |ds|, trace);
      && |s'.chain| == |s.chain| + |ds|
      && |r| == |s'.chain| + |ds|
      && r[s.iterations] == Zeros(s.nwalkers)
      && s'.lnprobability[s.iterations] == trace[0].lnprob
  {
    assert |s'.chain| == |s.chain| + |ds| && |trace| == |ds| && s'.lnprobability[s.iterations] == trace[0].lnprob by {
      SampleRecords(s, pos0, lnprob0, |ds|, ds, lnpost, ln, s', trace);
      assert s.iterations + 0 == s.iterations;
    }
    var r := SampleStoreAsWritten(s.lnprobability, s.nwalkers, |ds|, trace);
    assert r[|s.lnprobability| + 0] == Zeros(s.nwalkers);
  }

  /** One step from an empty store of two walkers whose ln-posteriors are
      -1 and -2: the store as written has two columns for one chain slot,
      and column 0, the slot's column, is zero. */
  lemma SampleStoreAsWrittenOneStep()
    ensures SampleStoreAsWritten([], 2, 1, [Walkers([[0.0], [1.0]], [-1.0, -2.0])]) == [[0.0, 0.0], [-1.0, -2.0]]
  {
    var trace := [Walkers([[0.0], [1.0]], [-1.0, -2.0])];
    var r := SampleStoreAsWritten([], 2, 1, trace);
    assert r[0] == Zeros(2) == [0.0, 0.0];
  }
}
