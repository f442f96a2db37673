/** Properties of the sampler that relate several calls: resetting, running
    in batches, and the fixed dimensions across a whole run. */
module Batching {
  import opened Results
  import opened StretchMove
  import opened Ensemble
  import opened Records

  /** `clear_chain` forgets everything about earlier runs: two samplers with
      the same configuration are equal once cleared, whatever they ran. */
  lemma ClearChainForgetsRun(s: Sampler, t: Sampler)
    requires SameConfig(s, t)
    ensures ClearChain(s) == ClearChain(t)
  {
  }

  /** Clearing twice is clearing once. */
  lemma ClearChainIdempotent(s: Sampler)
    ensures ClearChain(ClearChain(s)) == ClearChain(s)
  {
  }

  // ---------------------------------------------------------------------------
  // Running in batches
  // ---------------------------------------------------------------------------

  /** Continue a successful first batch with a second one, concatenating
      what both yield. */
  function Then(first: (Sampler, seq<Walkers>), second: Result<(Sampler, seq<Walkers>)>): Result<(Sampler, seq<Walkers>)> {
    match second
    case Err(e) => Err(e)
    case Ok((s2, tr2)) => Ok((s2, first.1 + tr2))
  }

  /** A run whose first step succeeds is that step followed by the run of
      the remaining draws. */
  lemma RunCons(s: Sampler, w: Walkers, ds: seq<Draws>, lnpost: seq<real> -> real, ln: real -> real)
    requires Valid(s) && s.a != 0.0 && s.iterations + |ds| <= |s.chain|
    requires WalkersShaped(w, s.nwalkers, s.npars)
    requires forall k :: 0 <= k < |ds| ==> DrawsFit(ds[k], s.nwalkers)
    requires |ds| > 0 && Step(s, w, ds[0], lnpost, ln).Ok?
    ensures var st := Step(s, w, ds[0], lnpost, ln).value;
      Run(s, w, ds, lnpost, ln) == Then((st.0, [st.1]), Run(st.0, st.1, ds[1..], lnpost, ln))
  {
  }

  /** Running the draws `ds1 + ds2` is running `ds1` and then `ds2` from
      where the first part stopped; the yielded walkers concatenate. */
  lemma {:induction false} RunSplit(s: Sampler, w: Walkers, ds1: seq<Draws>, ds2: seq<Draws>,
                                    lnpost: seq<real> -> real, ln: real -> real, s1: Sampler, tr1: seq<Walkers>)
    requires Valid(s) && s.a != 0.0 && s.iterations + |ds1| + |ds2| <= |s.chain|
    requires WalkersShaped(w, s.nwalkers, s.npars)
    requires forall k :: 0 <= k < |ds1| ==> DrawsFit(ds1[k], s.nwalkers)
    requires forall k :: 0 <= k < |ds2| ==> DrawsFit(ds2[k], s.nwalkers)
    requires |ds1| > 0 && Run(s, w, ds1, lnpost, ln) == Ok((s1, tr1))
    ensures Valid(s1) && s1.a != 0.0 && s1.iterations + |ds2| <= |s1.chain| && SameConfig(s1, s)
    ensures |tr1| == |ds1| && WalkersShaped(tr1[|ds1| - 1], s.nwalkers, s.npars)
    ensures Run(s, w, ds1 + ds2, lnpost, ln) == Then((s1, tr1), Run(s1, tr1[|ds1| - 1], ds2, lnpost, ln))
    decreases |ds1|, 1
  {
    if |ds1| == 1 {
      RunSplitOne(s, w, ds1, ds2, lnpost, ln, s1, tr1);
    } else {
      RunSplitMore(s, w, ds1, ds2, lnpost, ln, s1, tr1);
    }
  }

  /** `RunSplit` for a first part of one iteration. */
  lemma RunSplitOne(s: Sampler, w: Walkers, ds1: seq<Draws>, ds2: seq<Draws>,
                    lnpost: seq<real> -> real, ln: real -> real, s1: Sampler, tr1: seq<Walkers>)
    requires Valid(s) && s.a != 0.0 && s.iterations + |ds1| + |ds2| <= |s.chain|
    requires WalkersShaped(w, s.nwalkers, s.npars)
    requires forall k :: 0 <= k < |ds1| ==> DrawsFit(ds1[k], s.nwalkers)
    requires forall k :: 0 <= k < |ds2| ==> DrawsFit(ds2[k], s.nwalkers)
    requires |ds1| == 1 && Run(s, w, ds1, lnpost, ln) == Ok((s1, tr1))
    ensures Valid(s1) && s1.a != 0.0 && s1.iterations + |ds2| <= |s1.chain| && SameConfig(s1, s)
    ensures |tr1| == |ds1| && WalkersShaped(tr1[|ds1| - 1], s.nwalkers, s.npars)
    ensures Run(s, w, ds1 + ds2, lnpost, ln) == Then((s1, tr1), Run(s1, tr1[|ds1| - 1], ds2, lnpost, ln))
  {
    RunUnfold(s, w, ds1, lnpost, ln, s1, tr1);
    var st := Step(s, w, ds1[0], lnpost, ln).value;
    var ds := ds1 + ds2;
    ConcatHeadTail(ds1, ds2);
    AllDrawsFitConcat(ds1, ds2, s.nwalkers);
    RunCons(s, w, ds, lnpost, ln);
    RunEmpty(st.0, st.1, ds1[1..], lnpost, ln, s1, tr1[1..]);
    assert ds[1..] == ds2 && tr1 == [st.1];
    ThenCons(st.0, st.1, s1, [], Run(s1, tr1[0], ds2, lnpost, ln));
  }

  /** `RunSplit` for a first part of more than one iteration: split off
      its first step and split the rest. */
  lemma {:induction false} RunSplitMore(s: Sampler, w: Walkers, ds1: seq<Draws>, ds2: seq<Draws>,
                                        lnpost: seq<real> -> real, ln: real -> real, s1: Sampler, tr1: seq<Walkers>)
    requires Valid(s) && s.a != 0.0 && s.iterations + |ds1| + |ds2| <= |s.chain|
    requires WalkersShaped(w, s.nwalkers, s.npars)
    requires forall k :: 0 <= k < |ds1| ==> DrawsFit(ds1[k], s.nwalkers)
    requires forall k :: 0 <= k < |ds2| ==> DrawsFit(ds2[k], s.nwalkers)
    requires |ds1| > 1 && Run(s, w, ds1, lnpost, ln) == Ok((s1, tr1))
    ensures Valid(s1) && s1.a != 0.0 && s1.iterations + |ds2| <= |s1.chain| && SameConfig(s1, s)
    ensures |tr1| == |ds1| && WalkersShaped(tr1[|ds1| - 1], s.nwalkers, s.npars)
    ensures Run(s, w, ds1 + ds2, lnpost, ln) == Then((s1, tr1), Run(s1, tr1[|ds1| - 1], ds2, lnpost, ln))
    decreases |ds1|, 0
  {
    RunUnfold(s, w, ds1, lnpost, ln, s1, tr1);
    var st := Step(s, w, ds1[0], lnpost, ln).value;
    var ds := ds1 + ds2;
    ConcatHeadTail(ds1, ds2);
    AllDrawsFitConcat(ds1, ds2, s.nwalkers);
    RunCons(s, w, ds, lnpost, ln);
    RunSplit(st.0, st.1, ds1[1..], ds2, lnpost, ln, s1, tr1[1..]);
    assert tr1 == [st.1] + tr1[1..];
    assert tr1[1..][|ds1| - 2] == tr1[|ds1| - 1];
    ThenCons(st.0, st.1, s1, tr1[1..], Run(s1, tr1[|ds1| - 1], ds2, lnpost, ln));
  }

  lemma ConcatHeadTail<T>(a: seq<T>, b: seq<T>)
    requires |a| > 0
    ensures (a + b)[0] == a[0] && (a + b)[1..] == a[1..] + b
  {
  }

  lemma AllDrawsFitConcat(ds1: seq<Draws>, ds2: seq<Draws>, n: nat)
    requires forall k :: 0 <= k < |ds1| ==> DrawsFit(ds1[k], n)
    requires forall k :: 0 <= k < |ds2| ==> DrawsFit(ds2[k], n)
    ensures forall k :: 0 <= k < |ds1 + ds2| ==> DrawsFit((ds1 + ds2)[k], n)
  {
  }

  /** The empty run changes nothing. */
  lemma RunEmpty(s: Sampler, w: Walkers, ds: seq<Draws>, lnpost: seq<real> -> real, ln: real -> real, s1: Sampler, tr1: seq<Walkers>)
    requires Valid(s) && s.a != 0.0 && s.iterations + |ds| <= |s.chain|
    requires WalkersShaped(w, s.nwalkers, s.npars)
    requires forall k :: 0 <= k < |ds| ==> DrawsFit(ds[k], s.nwalkers)
    requires |ds| == 0 && Run(s, w, ds, lnpost, ln) == Ok((s1, tr1))
    ensures s1 == s && tr1 == []
  {
  }

  /** Prepending one yielded ensemble commutes with continuing a run. */
  lemma ThenCons(s0: Sampler, w0: Walkers, s1: Sampler, tr: seq<Walkers>, rest: Result<(Sampler, seq<Walkers>)>)
    ensures Then((s0, [w0]), Then((s1, tr), rest)) == Then((s1, [w0] + tr), rest)
  {
    if rest.Ok? {
      assert [w0] + (tr + rest.value.1) == ([w0] + tr) + rest.value.1;
    }
  }

  /** Padding commutes with a step: the step writes slot `iterations`,
      which lies before the new zero slots. */
  lemma StepPad(s: Sampler, w: Walkers, d: Draws, k: nat, lnpost: seq<real> -> real, ln: real -> real)
    requires Valid(s) && s.a != 0.0 && s.iterations < |s.chain|
    requires WalkersShaped(w, s.nwalkers, s.npars) && DrawsFit(d, s.nwalkers)
    ensures Step(Pad(s, k), w, d, lnpost, ln)
            == match Step(s, w, d, lnpost, ln)
               case Err(e) => Err(e)
               case Ok((s1, w1)) => Ok((Pad(s1, k), w1))
  {
    var p := Pad(s, k);
    if s.nwalkers >= 2 && NormIndices(s.fixedInds, s.npars).Some? {
      var (s1, w1) := Step(s, w, d, lnpost, ln).value;
      var (p1, v1) := Step(p, w, d, lnpost, ln).value;
      var inds := NormIndices(s.fixedInds, s.npars).value;
      assert Move(p, inds, w, d, lnpost, ln) == Move(s, inds, w, d, lnpost, ln);
      assert v1 == w1;
      assert p1.chain == Pad(s1, k).chain;
      assert p1.lnprobability == Pad(s1, k).lnprobability;
    }
  }

  /** Padding commutes with a run that stays inside the recorded slots. */
  lemma {:induction false} RunPad(s: Sampler, w: Walkers, ds: seq<Draws>, k: nat,
                                  lnpost: seq<real> -> real, ln: real -> real)
    requires Valid(s) && s.a != 0.0 && s.iterations + |ds| <= |s.chain|
    requires WalkersShaped(w, s.nwalkers, s.npars)
    requires forall j :: 0 <= j < |ds| ==> DrawsFit(ds[j], s.nwalkers)
    ensures Run(Pad(s, k), w, ds, lnpost, ln)
            == match Run(s, w, ds, lnpost, ln)
               case Err(e) => Err(e)
               case Ok((s1, tr)) => Ok((Pad(s1, k), tr))
    decreases |ds|
  {
    if |ds| > 0 {
      StepPad(s, w, ds[0], k, lnpost, ln);
      var st := Step(s, w, ds[0], lnpost, ln);
      if st.Ok? {
        var (s1, w1) := st.value;
        RunPad(s1, w1, ds[1..], k, lnpost, ln);
      }
    }
  }

  lemma PadPad(s: Sampler, j: nat, k: nat)
    ensures Pad(Pad(s, j), k) == Pad(s, j + k)
  {
    var z := ZeroEnsemble(s.nwalkers, s.npars);
    assert seq(j, _ => z) + seq(k, _ => z) == seq(j + k, _ => z);
    var c := Zeros(s.nwalkers);
    assert seq(j, _ => c) + seq(k, _ => c) == seq(j + k, _ => c);
  }

  /** The padded form of batching: padding for `a + b` iterations and
      running them all is padding for `a`, running those, padding for `b`
      and running the rest. */
  lemma PaddedRunBatching(s: Sampler, w: Walkers, ds1: seq<Draws>, ds2: seq<Draws>,
                          lnpost: seq<real> -> real, ln: real -> real, s1: Sampler, tr1: seq<Walkers>)
    requires Valid(s) && s.a != 0.0
    requires WalkersShaped(w, s.nwalkers, s.npars)
    requires forall k :: 0 <= k < |ds1| ==> DrawsFit(ds1[k], s.nwalkers)
    requires forall k :: 0 <= k < |ds2| ==> DrawsFit(ds2[k], s.nwalkers)
    requires |ds1| > 0 && Run(Pad(s, |ds1|), w, ds1, lnpost, ln) == Ok((s1, tr1))
    ensures Valid(s1) && s1.a != 0.0 && SameConfig(s1, s)
    ensures |tr1| == |ds1| && WalkersShaped(tr1[|ds1| - 1], s.nwalkers, s.npars)
    ensures Run(Pad(s, |ds1| + |ds2|), w, ds1 + ds2, lnpost, ln)
            == Then((s1, tr1), Run(Pad(s1, |ds2|), tr1[|ds1| - 1], ds2, lnpost, ln))
  {
    var sa := Pad(s, |ds1|);
    var big := Pad(sa, |ds2|);
    assert big == Pad(s, |ds1| + |ds2|) by { PadPad(s, |ds1|, |ds2|); }
    assert Run(big, w, ds1, lnpost, ln) == Ok((Pad(s1, |ds2|), tr1)) by {
      RunPad(sa, w, ds1, |ds2|, lnpost, ln);
    }
    RunSplit(big, w, ds1, ds2, lnpost, ln, Pad(s1, |ds2|), tr1);
    var rest := Run(Pad(s1, |ds2|), tr1[|ds1| - 1], ds2, lnpost, ln);
    assert Then((Pad(s1, |ds2|), tr1), rest) == Then((s1, tr1), rest);
  }

  /** Batching does not alter the trajectory: sampling `|ds1|` iterations
      and then `|ds2|` more, restarting from the last yielded walkers, ends
      in the same sampler, and yields the same walkers, as sampling all of
      them in one call. */
  lemma SampleBatching(s: Sampler, pos0: seq<seq<real>>, lnprob0: Option<seq<real>>,
                       ds1: seq<Draws>, ds2: seq<Draws>, lnpost: seq<real> -> real, ln: real -> real,
                       s1: Sampler, tr1: seq<Walkers>)
    requires Valid(s) && s.a != 0.0
    requires Shaped(pos0, s.nwalkers, s.npars)
    requires lnprob0.Some? ==> |lnprob0.value| == s.nwalkers
    requires forall k :: 0 <= k < |ds1| ==> DrawsFit(ds1[k], s.nwalkers)
    requires forall k :: 0 <= k < |ds2| ==> DrawsFit(ds2[k], s.nwalkers)
    requires |ds1| > 0 && Sample(s, pos0, lnprob0, |ds1|, ds1, lnpost, ln) == Ok((s1, tr1))
    ensures Valid(s1) && s1.a != 0.0 && |tr1| == |ds1|
    ensures Shaped(tr1[|ds1| - 1].pos, s.nwalkers, s.npars) && |tr1[|ds1| - 1].lnprob| == s.nwalkers
    ensures Sample(s, pos0, lnprob0, |ds1| + |ds2|, ds1 + ds2, lnpost, ln)
            == Then((s1, tr1), Sample(s1, tr1[|ds1| - 1].pos, Some(tr1[|ds1| - 1].lnprob), |ds2|, ds2, lnpost, ln))
  {
    SampleIsRun(s, pos0, lnprob0, |ds1|, ds1, lnpost, ln, s1, tr1);
    if |ds2| == 0 {
      assert ds1 + ds2 == ds1 && tr1 + [] == tr1;
    } else {
      SampleBatchingMore(s, pos0, lnprob0, ds1, ds2, lnpost, ln, s1, tr1);
    }
  }

  /** Batching with a non-empty second call: both calls are padded runs,
      and so is the single call. */
  lemma SampleBatchingMore(s: Sampler, pos0: seq<seq<real>>, lnprob0: Option<seq<real>>,
                           ds1: seq<Draws>, ds2: seq<Draws>, lnpost: seq<real> -> real, ln: real -> real,
                           s1: Sampler, tr1: seq<Walkers>)
    requires Valid(s) && s.a != 0.0
    requires Shaped(pos0, s.nwalkers, s.npars)
    requires lnprob0.Some? ==> |lnprob0.value| == s.nwalkers
    requires forall k :: 0 <= k < |ds1| ==> DrawsFit(ds1[k], s.nwalkers)
    requires forall k :: 0 <= k < |ds2| ==> DrawsFit(ds2[k], s.nwalkers)
    requires |ds1| > 0 && Sample(s, pos0, lnprob0, |ds1|, ds1, lnpost, ln) == Ok((s1, tr1))
    requires |ds2| > 0 && Valid(s1) && s1.a != 0.0 && |tr1| == |ds1|
    requires Shaped(tr1[|ds1| - 1].pos, s.nwalkers, s.npars) && |tr1[|ds1| - 1].lnprob| == s.nwalkers
    ensures Sample(s, pos0, lnprob0, |ds1| + |ds2|, ds1 + ds2, lnpost, ln)
            == Then((s1, tr1), Sample(s1, tr1[|ds1| - 1].pos, Some(tr1[|ds1| - 1].lnprob), |ds2|, ds2, lnpost, ln))
  {
    var w := Walkers(pos0, if lnprob0.None? then EnsembleLnPosterior(pos0, lnpost) else lnprob0.value);
    SampleIsRun(s, pos0, lnprob0, |ds1|, ds1, lnpost, ln, s1, tr1);
    var last := tr1[|ds1| - 1];
    SampleUnfold(s, pos0, lnprob0, |ds1| + |ds2|, ds1 + ds2, lnpost, ln);
    PaddedRunBatching(s, w, ds1, ds2, lnpost, ln, s1, tr1);
    SampleUnfold(s1, last.pos, Some(last.lnprob), |ds2|, ds2, lnpost, ln);
    assert Walkers(last.pos, last.lnprob) == last;
  }

  /** A `sample` call advanced at least once is the run over the padded
      store from its starting walkers. */
  lemma SampleUnfold(s: Sampler, pos0: seq<seq<real>>, lnprob0: Option<seq<real>>, iterations: nat, ds: seq<Draws>,
                     lnpost: seq<real> -> real, ln: real -> real)
    requires Valid(s) && s.a != 0.0 && 0 < |ds| <= iterations
    requires Shaped(pos0, s.nwalkers, s.npars)
    requires lnprob0.Some? ==> |lnprob0.value| == s.nwalkers
    requires forall k :: 0 <= k < |ds| ==> DrawsFit(ds[k], s.nwalkers)
    ensures Sample(s, pos0, lnprob0, iterations, ds, lnpost, ln)
            == Run(Pad(s, iterations), Walkers(pos0, if lnprob0.None? then EnsembleLnPosterior(pos0, lnpost) else lnprob0.value), ds, lnpost, ln)
  {
  }

  // ---------------------------------------------------------------------------
  // Fixed dimensions over a run
  // ---------------------------------------------------------------------------

  /** If the starting positions hold the pinned values, so does every
      ensemble a run yields. */
  lemma {:induction false} RunKeepsFixed(s: Sampler, w: Walkers, ds: seq<Draws>,
                                         lnpost: seq<real> -> real, ln: real -> real, s': Sampler, trace: seq<Walkers>)
    requires Valid(s) && s.a != 0.0 && s.iterations + |ds| <= |s.chain|
    requires WalkersShaped(w, s.nwalkers, s.npars)
    requires forall j :: 0 <= j < |ds| ==> DrawsFit(ds[j], s.nwalkers)
    requires FixedHeld(s, w.pos)
    requires Run(s, w, ds, lnpost, ln) == Ok((s', trace))
    ensures |trace| == |ds| && forall t :: 0 <= t < |ds| ==> FixedHeld(s, trace[t].pos)
    decreases |ds|
  {
    if |ds| > 0 {
      RunUnfold(s, w, ds, lnpost, ln, s', trace);
      StepKeepsFixed(s, w, ds[0], lnpost, ln);
      var (s1, w1) := Step(s, w, ds[0], lnpost, ln).value;
      assert FixedHeld(s1, w1.pos);
      RunKeepsFixed(s1, w1, ds[1..], lnpost, ln, s', trace[1..]);
      forall t | 0 <= t < |ds|
        ensures FixedHeld(s, trace[t].pos)
      {
        if t > 0 {
          assert trace[t] == trace[1..][t - 1];
        }
      }
    }
  }

  /** Every iteration that `sample` records holds the pinned values in the
      fixed dimensions of every walker, provided the starting positions do. */
  lemma SampleKeepsFixed(s: Sampler, pos0: seq<seq<real>>, lnprob0: Option<seq<real>>, iterations: nat, ds: seq<Draws>,
                         lnpost: seq<real> -> real, ln: real -> real, s': Sampler, trace: seq<Walkers>)
    requires Valid(s) && s.a != 0.0 && |ds| <= iterations
    requires Shaped(pos0, s.nwalkers, s.npars)
    requires lnprob0.Some? ==> |lnprob0.value| == s.nwalkers
    requires forall k :: 0 <= k < |ds| ==> DrawsFit(ds[k], s.nwalkers)
    requires FixedHeld(s, pos0)
    requires Sample(s, pos0, lnprob0, iterations, ds, lnpost, ln) == Ok((s', trace))
    ensures |s'.chain| == |s.chain| + (if |ds| > 0 then iterations else 0)
    ensures forall t :: s.iterations <= t < s.iterations + |ds| ==> FixedHeld(s, s'.chain[t])
  {
    var w := Walkers(pos0, if lnprob0.None? then EnsembleLnPosterior(pos0, lnpost) else lnprob0.value);
    SampleIsRun(s, pos0, lnprob0, iterations, ds, lnpost, ln, s', trace);
    if |ds| > 0 {
      RunKeepsFixed(Pad(s, iterations), w, ds, lnpost, ln, s', trace);
    }
    SampleRecords(s, pos0, lnprob0, iterations, ds, lnpost, ln, s', trace);
    forall t | s.iterations <= t < s.iterations + |ds|
      ensures FixedHeld(s, s'.chain[t])
    {
      assert s'.chain[s.iterations + (t - s.iterations)] == trace[t - s.iterations].pos;
    }
  }

  /** The hypothesis on the starting positions is needed: `sample` copies
      `position0` without pinning it, so a walker whose first proposal is
      rejected is recorded at its unpinned start.  Two walkers in one
      dimension, with that dimension fixed to 5, start at 0 and 1; with a
      flat ln-posterior and a logarithm that is constantly 1000 every
      proposal is rejected, and slot 0 records the start. */
  lemma SampleRecordsUnpinnedStart(lnpost: seq<real> -> real, ln: real -> real)
    requires (forall x :: lnpost(x) == 0.0) && (forall y :: ln(y) == 1000.0)
    ensures var s := Sampler(2, 1, 2.0, 0, [0], [5.0], [], [], 0, [0, 0]);
      var r := Sample(s, [[0.0], [1.0]], Some([0.0, 0.0]), 1, [Draws([0.5, 0.5], [0, 0], [0.5, 0.5])], lnpost, ln);
      && r.Ok? && |r.value.0.chain| == 1
      && r.value.0.chain[0] == [[0.0], [1.0]]
      && !FixedHeld(s, r.value.0.chain[0])
  {
    var s := Sampler(2, 1, 2.0, 0, [0], [5.0], [], [], 0, [0, 0]);
    var pos0 := [[0.0], [1.0]];
    var d := Draws([0.5, 0.5], [0, 0], [0.5, 0.5]);
    var inds: seq<int> := [0];
    assert NormIndex(inds[0], 1) == Some(0);
    assert NormIndices(inds, 1).Some? && NormIndices(inds, 1).value == [0];
    assert DrawsFit(d, 2);
    var r := Sample(s, pos0, Some([0.0, 0.0]), 1, [d], lnpost, ln);
    assert r.Ok?;
    var (s', trace) := r.value;
    SampleIsRun(s, pos0, Some([0.0, 0.0]), 1, [d], lnpost, ln, s', trace);
    RunRecordsStart(Pad(s, 1), Walkers(pos0, [0.0, 0.0]), [d], lnpost, ln, 1000.0, s', trace);
    UnpinnedStartNotHeld();
  }

  /** The start of that example does not hold the fixed value. */
  lemma UnpinnedStartNotHeld()
    ensures !FixedHeld(Sampler(2, 1, 2.0, 0, [0], [5.0], [], [], 0, [0, 0]), [[0.0], [1.0]])
  {
    var inds: seq<int> := [0];
    assert NormIndex(inds[0], 1) == Some(0);
    assert NormIndices(inds, 1).Some? && NormIndices(inds, 1).value == [0];
    var x := [[0.0], [1.0]][0];
    assert !PinnedBy(x, [0], [5.0]) by {
      assert x[0] == 0.0 && [0][1..] == [];
    }
  }

  /** In a run whose proposals are all rejected, the first recorded slot
      holds the starting positions. */
  lemma RunRecordsStart(s: Sampler, w: Walkers, ds: seq<Draws>, lnpost: seq<real> -> real, ln: real -> real, c: real,
                        s': Sampler, trace: seq<Walkers>)
    requires Valid(s) && s.a != 0.0 && s.iterations + |ds| <= |s.chain|
    requires WalkersShaped(w, s.nwalkers, s.npars)
    requires forall k :: 0 <= k < |ds| ==> DrawsFit(ds[k], s.nwalkers)
    requires s.neff == 0 && c >= 0.0 && (forall x :: lnpost(x) == 0.0) && (forall y :: ln(y) == c)
    requires forall i :: 0 <= i < |w.lnprob| ==> w.lnprob[i] == 0.0
    requires |ds| > 0 && Run(s, w, ds, lnpost, ln) == Ok((s', trace))
    ensures s.iterations < |s'.chain| && s'.chain[s.iterations] == w.pos
  {
    RunRejectsAll(s, w, ds, lnpost, ln, c, s', trace);
    RunSlot(s, w, ds, lnpost, ln, s', trace, 0);
    assert s.iterations + 0 == s.iterations;
  }

  /** With `neff = 0`, a flat ln-posterior, walkers that carry it and a
      logarithm that is a constant `c >= 0`, the test of lines 368-369
      reads `-c > c` and rejects every proposal: the first yield of a run
      keeps the starting positions. */
  lemma RunRejectsAll(s: Sampler, w: Walkers, ds: seq<Draws>, lnpost: seq<real> -> real, ln: real -> real, c: real,
                      s': Sampler, trace: seq<Walkers>)
    requires Valid(s) && s.a != 0.0 && s.iterations + |ds| <= |s.chain|
    requires WalkersShaped(w, s.nwalkers, s.npars)
    requires forall k :: 0 <= k < |ds| ==> DrawsFit(ds[k], s.nwalkers)
    requires s.neff == 0 && c >= 0.0 && (forall x :: lnpost(x) == 0.0) && (forall y :: ln(y) == c)
    requires forall i :: 0 <= i < |w.lnprob| ==> w.lnprob[i] == 0.0
    requires |ds| > 0 && Run(s, w, ds, lnpost, ln) == Ok((s', trace))
    ensures |trace| == |ds| && trace[0].pos == w.pos
  {
    RunUnfold(s, w, ds, lnpost, ln, s', trace);
    var (s1, w1) := Step(s, w, ds[0], lnpost, ln).value;
    StepProposes(s, w, ds[0], lnpost, ln, s1, w1);
    forall i | 0 <= i < s.nwalkers
      ensures w1.pos[i] == w.pos[i]
    {
      var inds := NormIndices(s.fixedInds, s.npars).value;
      var y := StretchProposal(s, inds, w.pos, ds[0], i);
      assert !AcceptTest(s.neff, ln(StretchFactor(s.a, ds[0].zu[i])), lnpost(y), w.lnprob[i], ln(ds[0].acceptU[i]));
    }
  }

  // ---------------------------------------------------------------------------
  // Ln-posteriors over a run
  // ---------------------------------------------------------------------------

  /** If the starting ln-posteriors are the ones at the starting positions,
      every ensemble a run yields carries the ln-posteriors of its own
      positions. */
  lemma {:induction false} RunKeepsLnProb(s: Sampler, w: Walkers, ds: seq<Draws>,
                                          lnpost: seq<real> -> real, ln: real -> real, s': Sampler, trace: seq<Walkers>)
    requires Valid(s) && s.a != 0.0 && s.iterations + |ds| <= |s.chain|
    requires WalkersShaped(w, s.nwalkers, s.npars)
    requires forall j :: 0 <= j < |ds| ==> DrawsFit(ds[j], s.nwalkers)
    requires Consistent(w, lnpost)
    requires Run(s, w, ds, lnpost, ln) == Ok((s', trace))
    ensures |trace| == |ds| && forall t :: 0 <= t < |ds| ==> Consistent(trace[t], lnpost)
    decreases |ds|
  {
    if |ds| > 0 {
      RunUnfold(s, w, ds, lnpost, ln, s', trace);
      StepKeepsLnProb(s, w, ds[0], lnpost, ln);
      var (s1, w1) := Step(s, w, ds[0], lnpost, ln).value;
      RunKeepsLnProb(s1, w1, ds[1..], lnpost, ln, s', trace[1..]);
      forall t | 0 <= t < |ds|
        ensures Consistent(trace[t], lnpost)
      {
        if t > 0 {
          assert trace[t] == trace[1..][t - 1];
        }
      }
    }
  }

  /** What `sample` yields and records is consistent: when no ln-posteriors
      are passed in, or the ones passed in belong to the starting positions,
      every yielded and every recorded ensemble carries the ln-posteriors
      of its own positions. */
  lemma SampleKeepsLnProb(s: Sampler, pos0: seq<seq<real>>, lnprob0: Option<seq<real>>, iterations: nat, ds: seq<Draws>,
                          lnpost: seq<real> -> real, ln: real -> real, s': Sampler, trace: seq<Walkers>)
    requires Valid(s) && s.a != 0.0 && |ds| <= iterations
    requires Shaped(pos0, s.nwalkers, s.npars)
    requires lnprob0.Some? ==> |lnprob0.value| == s.nwalkers
    requires forall k :: 0 <= k < |ds| ==> DrawsFit(ds[k], s.nwalkers)
    requires lnprob0.None? || Consistent(Walkers(pos0, lnprob0.value), lnpost)
    requires Sample(s, pos0, lnprob0, iterations, ds, lnpost, ln) == Ok((s', trace))
    ensures |trace| == |ds|
    ensures forall k :: 0 <= k < |ds| ==> Consistent(trace[k], lnpost) && SlotConsistent(s', s.iterations, k, lnpost)
  {
    SampleIsRun(s, pos0, lnprob0, iterations, ds, lnpost, ln, s', trace);
    if |ds| > 0 {
      StartConsistent(pos0, lnprob0, lnpost);
      RunRecordsConsistent(Pad(s, iterations), Walkers(pos0, if lnprob0.None? then EnsembleLnPosterior(pos0, lnpost) else lnprob0.value),
                           ds, lnpost, ln, s', trace);
    }
  }

  /** The walkers `sample` starts from are consistent when the ln-posteriors
      passed in, if any, are. */
  lemma StartConsistent(pos0: seq<seq<real>>, lnprob0: Option<seq<real>>, lnpost: seq<real> -> real)
    requires lnprob0.None? || Consistent(Walkers(pos0, lnprob0.value), lnpost)
    ensures Consistent(Walkers(pos0, if lnprob0.None? then EnsembleLnPosterior(pos0, lnpost) else lnprob0.value), lnpost)
  {
    if lnprob0.None? {
      EnsembleLnPosteriorAt(pos0, lnpost);
    }
  }

  /** A run from a consistent ensemble records consistent slots. */
  lemma RunRecordsConsistent(s: Sampler, w: Walkers, ds: seq<Draws>,
                             lnpost: seq<real> -> real, ln: real -> real, s': Sampler, trace: seq<Walkers>)
    requires Valid(s) && s.a != 0.0 && s.iterations + |ds| <= |s.chain|
    requires WalkersShaped(w, s.nwalkers, s.npars)
    requires forall j :: 0 <= j < |ds| ==> DrawsFit(ds[j], s.nwalkers)
    requires Consistent(w, lnpost)
    requires Run(s, w, ds, lnpost, ln) == Ok((s', trace))
    ensures |trace| == |ds|
    ensures forall k :: 0 <= k < |ds| ==> Consistent(trace[k], lnpost) && SlotConsistent(s', s.iterations, k, lnpost)
  {
    RunKeepsLnProb(s, w, ds, lnpost, ln, s', trace);
    forall k | 0 <= k < |ds|
      ensures Consistent(trace[k], lnpost) && SlotConsistent(s', s.iterations, k, lnpost)
    {
      RunSlot(s, w, ds, lnpost, ln, s', trace, k);
    }
  }

  /** Slot `base + k` of the store holds the ln-posteriors of its own
      positions. */
  ghost predicate SlotConsistent(s: Sampler, base: nat, k: nat, lnpost: seq<real> -> real) {
    base + k < |s.chain| && base + k < |s.lnprobability| && Consistent(Slot(s, base + k), lnpost)
  }

  /** `run_mcmc` returns the last ensemble `sample` yielded: the positions
      and ln-posteriors in the last recorded slot, consistent with each
      other when the starting ln-posteriors were. */
  lemma RunMcmcLast(s: Sampler, pos0: seq<seq<real>>, lnprob0: Option<seq<real>>, ds: seq<Draws>,
                    lnpost: seq<real> -> real, ln: real -> real, s': Sampler, w': Walkers)
    requires Valid(s) && s.a != 0.0
    requires Shaped(pos0, s.nwalkers, s.npars)
    requires lnprob0.Some? ==> |lnprob0.value| == s.nwalkers
    requires forall k :: 0 <= k < |ds| ==> DrawsFit(ds[k], s.nwalkers)
    requires RunMcmc(s, pos0, lnprob0, ds, lnpost, ln) == Ok((s', w'))
    ensures 0 < s'.iterations <= |s'.chain| == |s'.lnprobability|
    ensures w'.pos == s'.chain[s'.iterations - 1] && w'.lnprob == s'.lnprobability[s'.iterations - 1]
    ensures lnprob0.None? || Consistent(Walkers(pos0, lnprob0.value), lnpost) ==> Consistent(w', lnpost)
  {
    RunMcmcIsSample(s, pos0, lnprob0, ds, lnpost, ln, s', w');
    var trace := Sample(s, pos0, lnprob0, |ds|, ds, lnpost, ln).value.1;
    SampleLast(s, pos0, lnprob0, |ds|, ds, lnpost, ln, s', trace);
  }

  /** `run_mcmc` is `sample` over as many iterations as there are draws,
      keeping the last yielded ensemble. */
  lemma RunMcmcIsSample(s: Sampler, pos0: seq<seq<real>>, lnprob0: Option<seq<real>>, ds: seq<Draws>,
                        lnpost: seq<real> -> real, ln: real -> real, s': Sampler, w': Walkers)
    requires Valid(s) && s.a != 0.0
    requires Shaped(pos0, s.nwalkers, s.npars)
    requires lnprob0.Some? ==> |lnprob0.value| == s.nwalkers
    requires forall k :: 0 <= k < |ds| ==> DrawsFit(ds[k], s.nwalkers)
    requires RunMcmc(s, pos0, lnprob0, ds, lnpost, ln) == Ok((s', w'))
    ensures |ds| > 0 && Sample(s, pos0, lnprob0, |ds|, ds, lnpost, ln).Ok?
    ensures var (s1, trace) := Sample(s, pos0, lnprob0, |ds|, ds, lnpost, ln).value;
      s1 == s' && |trace| == |ds| && trace[|ds| - 1] == w'
  {
  }

  /** The last ensemble a `sample` call yields sits in the last slot it
      records, and is consistent when the starting ln-posteriors were. */
  lemma SampleLast(s: Sampler, pos0: seq<seq<real>>, lnprob0: Option<seq<real>>, iterations: nat, ds: seq<Draws>,
                   lnpost: seq<real> -> real, ln: real -> real, s': Sampler, trace: seq<Walkers>)
    requires Valid(s) && s.a != 0.0 && 0 < |ds| <= iterations
    requires Shaped(pos0, s.nwalkers, s.npars)
    requires lnprob0.Some? ==> |lnprob0.value| == s.nwalkers
    requires forall k :: 0 <= k < |ds| ==> DrawsFit(ds[k], s.nwalkers)
    requires Sample(s, pos0, lnprob0, iterations, ds, lnpost, ln) == Ok((s', trace))
    ensures 0 < s'.iterations <= |s'.chain| == |s'.lnprobability| && |trace| == |ds|
    ensures Slot(s', s'.iterations - 1) == trace[|ds| - 1]
    ensures lnprob0.None? || Consistent(Walkers(pos0, lnprob0.value), lnpost) ==> Consistent(trace[|ds| - 1], lnpost)
  {
    SampleIsRun(s, pos0, lnprob0, iterations, ds, lnpost, ln, s', trace);
    RunLast(Pad(s, iterations), Walkers(pos0, if lnprob0.None? then EnsembleLnPosterior(pos0, lnpost) else lnprob0.value),
            ds, lnpost, ln, s', trace);
    if lnprob0.None? || Consistent(Walkers(pos0, lnprob0.value), lnpost) {
      SampleKeepsLnProb(s, pos0, lnprob0, iterations, ds, lnpost, ln, s', trace);
    }
  }

  /** A run of at least one iteration records its last ensemble in the
      slot just below its new iteration count. */
  lemma RunLast(s: Sampler, w: Walkers, ds: seq<Draws>, lnpost: seq<real> -> real, ln: real -> real,
                s': Sampler, trace: seq<Walkers>)
    requires Valid(s) && s.a != 0.0 && s.iterations + |ds| <= |s.chain|
    requires WalkersShaped(w, s.nwalkers, s.npars)
    requires forall k :: 0 <= k < |ds| ==> DrawsFit(ds[k], s.nwalkers)
    requires Run(s, w, ds, lnpost, ln) == Ok((s', trace)) && |ds| > 0
    ensures 0 < s'.iterations <= |s'.chain| == |s'.lnprobability| && |trace| == |ds|
    ensures Slot(s', s'.iterations - 1) == trace[|ds| - 1]
  {
    RunSlot(s, w, ds, lnpost, ln, s', trace, |ds| - 1);
    assert s'.iterations - 1 == s.iterations + (|ds| - 1);
  }
}
