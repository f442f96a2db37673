/** What a run of `sample` leaves in the in-memory store: which slot holds
    which yielded ensemble, and which slots it leaves alone. */
module Records {
  import opened Results
  import opened StretchMove
  import opened Ensemble

  /** A successful run of at least one iteration is its first step followed
      by a successful run of the rest. */
  lemma RunUnfold(s: Sampler, w: Walkers, ds: seq<Draws>, lnpost: seq<real> -> real, ln: real -> real,
                  s': Sampler, trace: seq<Walkers>)
    requires Valid(s) && s.a != 0.0 && s.iterations + |ds| <= |s.chain|
    requires WalkersShaped(w, s.nwalkers, s.npars)
    requires forall k :: 0 <= k < |ds| ==> DrawsFit(ds[k], s.nwalkers)
    requires |ds| > 0 && Run(s, w, ds, lnpost, ln) == Ok((s', trace))
    ensures Step(s, w, ds[0], lnpost, ln).Ok?
    ensures |trace| == |ds| && Step(s, w, ds[0], lnpost, ln).value.1 == trace[0]
    ensures var st := Step(s, w, ds[0], lnpost, ln).value;
      Run(st.0, st.1, ds[1..], lnpost, ln) == Ok((s', trace[1..]))
  {
  }

  /** The sampler and walkers after the first step of a successful run,
      with what the rest of the run needs of them. */
  lemma RunTail(s: Sampler, w: Walkers, ds: seq<Draws>, lnpost: seq<real> -> real, ln: real -> real,
                s': Sampler, trace: seq<Walkers>) returns (s1: Sampler, w1: Walkers)
    requires Valid(s) && s.a != 0.0 && s.iterations + |ds| <= |s.chain|
    requires WalkersShaped(w, s.nwalkers, s.npars)
    requires forall k :: 0 <= k < |ds| ==> DrawsFit(ds[k], s.nwalkers)
    requires |ds| > 0 && Run(s, w, ds, lnpost, ln) == Ok((s', trace))
    ensures Valid(s1) && SameConfig(s1, s) && s1.iterations == s.iterations + 1 && |s1.chain| == |s.chain|
    ensures WalkersShaped(w1, s.nwalkers, s.npars) && |trace| == |ds| && trace[0] == w1
    ensures Run(s1, w1, ds[1..], lnpost, ln) == Ok((s', trace[1..]))
  {
    RunUnfold(s, w, ds, lnpost, ln, s', trace);
    s1 := Step(s, w, ds[0], lnpost, ln).value.0;
    w1 := Step(s, w, ds[0], lnpost, ln).value.1;
  }

  /** Slot `t` of the store, read back as the walkers it holds. */
  function Slot(s: Sampler, t: nat): (w: Walkers)
    requires t < |s.chain| && t < |s.lnprobability|
    ensures w.pos == s.chain[t] && w.lnprob == s.lnprobability[t]
  {
    Walkers(s.chain[t], s.lnprobability[t])
  }

  /** A run leaves alone every slot outside the ones it records. */
  lemma {:induction false} RunKeeps(s: Sampler, w: Walkers, ds: seq<Draws>, lnpost: seq<real> -> real, ln: real -> real,
                                    s': Sampler, trace: seq<Walkers>, u: nat)
    requires Valid(s) && s.a != 0.0 && s.iterations + |ds| <= |s.chain|
    requires WalkersShaped(w, s.nwalkers, s.npars)
    requires forall k :: 0 <= k < |ds| ==> DrawsFit(ds[k], s.nwalkers)
    requires Run(s, w, ds, lnpost, ln) == Ok((s', trace))
    requires u < s.iterations || s.iterations + |ds| <= u < |s.chain|
    ensures u < |s'.chain| && u < |s'.lnprobability|
    ensures Slot(s', u) == Slot(s, u)
    decreases |ds|
  {
    if |ds| > 0 {
      RunUnfold(s, w, ds, lnpost, ln, s', trace);
      var st := Step(s, w, ds[0], lnpost, ln).value;
      RunKeeps(st.0, st.1, ds[1..], lnpost, ln, s', trace[1..], u);
    }
  }

  /** The walkers a run yields after its iteration `t` are what it records
      in slot `iterations + t`. */
  lemma {:induction false} RunSlot(s: Sampler, w: Walkers, ds: seq<Draws>, lnpost: seq<real> -> real, ln: real -> real,
                                   s': Sampler, trace: seq<Walkers>, t: nat)
    requires Valid(s) && s.a != 0.0 && s.iterations + |ds| <= |s.chain|
    requires WalkersShaped(w, s.nwalkers, s.npars)
    requires forall k :: 0 <= k < |ds| ==> DrawsFit(ds[k], s.nwalkers)
    requires Run(s, w, ds, lnpost, ln) == Ok((s', trace))
    requires t < |ds|
    ensures s.iterations + t < |s'.chain| && s.iterations + t < |s'.lnprobability|
    ensures Slot(s', s.iterations + t) == trace[t]
    decreases |ds|, 1
  {
    if t == 0 {
      RunSlotFirst(s, w, ds, lnpost, ln, s', trace);
    } else {
      RunSlotNext(s, w, ds, lnpost, ln, s', trace, t);
    }
  }

  /** A later iteration of a run is recorded where the rest of the run,
      started after the first step, records it. */
  lemma {:induction false} RunSlotNext(s: Sampler, w: Walkers, ds: seq<Draws>, lnpost: seq<real> -> real, ln: real -> real,
                                       s': Sampler, trace: seq<Walkers>, t: nat)
    requires Valid(s) && s.a != 0.0 && s.iterations + |ds| <= |s.chain|
    requires WalkersShaped(w, s.nwalkers, s.npars)
    requires forall k :: 0 <= k < |ds| ==> DrawsFit(ds[k], s.nwalkers)
    requires Run(s, w, ds, lnpost, ln) == Ok((s', trace))
    requires 0 < t < |ds|
    ensures s.iterations + t < |s'.chain| && s.iterations + t < |s'.lnprobability|
    ensures Slot(s', s.iterations + t) == trace[t]
    decreases |ds|, 0
  {
    var s1, w1 := RunTail(s, w, ds, lnpost, ln, s', trace);
    RunSlot(s1, w1, ds[1..], lnpost, ln, s', trace[1..], t - 1);
    assert s1.iterations + (t - 1) == s.iterations + t;
    assert trace[1..][t - 1] == trace[t];
  }

  /** The first iteration of a run is recorded in slot `iterations`, and
      the rest of the run leaves that slot alone. */
  lemma RunSlotFirst(s: Sampler, w: Walkers, ds: seq<Draws>, lnpost: seq<real> -> real, ln: real -> real,
                     s': Sampler, trace: seq<Walkers>)
    requires Valid(s) && s.a != 0.0 && s.iterations + |ds| <= |s.chain|
    requires WalkersShaped(w, s.nwalkers, s.npars)
    requires forall k :: 0 <= k < |ds| ==> DrawsFit(ds[k], s.nwalkers)
    requires Run(s, w, ds, lnpost, ln) == Ok((s', trace))
    requires |ds| > 0
    ensures s.iterations < |s'.chain| && s.iterations < |s'.lnprobability|
    ensures Slot(s', s.iterations) == trace[0]
  {
    RunUnfold(s, w, ds, lnpost, ln, s', trace);
    var st := Step(s, w, ds[0], lnpost, ln).value;
    RunKeeps(st.0, st.1, ds[1..], lnpost, ln, s', trace[1..], s.iterations);
  }

  /** What a run records: the walkers yielded after iteration `t` of the
      batch sit in slot `iterations + t` of the chain and of the
      ln-probability store, and every other slot is untouched. */
  lemma RunRecords(s: Sampler, w: Walkers, ds: seq<Draws>, lnpost: seq<real> -> real, ln: real -> real)
    requires Valid(s) && s.a != 0.0 && s.iterations + |ds| <= |s.chain|
    requires WalkersShaped(w, s.nwalkers, s.npars)
    requires forall k :: 0 <= k < |ds| ==> DrawsFit(ds[k], s.nwalkers)
    requires Run(s, w, ds, lnpost, ln).Ok?
    ensures var (s', trace) := Run(s, w, ds, lnpost, ln).value;
      && (forall t :: 0 <= t < |ds| ==>
            s'.chain[s.iterations + t] == trace[t].pos && s'.lnprobability[s.iterations + t] == trace[t].lnprob)
      && (forall u :: 0 <= u < |s.chain| && !(s.iterations <= u < s.iterations + |ds|) ==>
            s'.chain[u] == s.chain[u] && s'.lnprobability[u] == s.lnprobability[u])
  {
    var (s', trace) := Run(s, w, ds, lnpost, ln).value;
    forall t | 0 <= t < |ds|
      ensures s'.chain[s.iterations + t] == trace[t].pos && s'.lnprobability[s.iterations + t] == trace[t].lnprob
    {
      RunSlot(s, w, ds, lnpost, ln, s', trace, t);
    }
    forall u | 0 <= u < |s.chain| && !(s.iterations <= u < s.iterations + |ds|)
      ensures s'.chain[u] == s.chain[u] && s'.lnprobability[u] == s.lnprobability[u]
    {
      RunKeeps(s, w, ds, lnpost, ln, s', trace, u);
    }
  }


  /** `sample` advanced at least once is a run from the starting walkers
      over the padded store; never advanced, it changes nothing. */
  lemma SampleIsRun(s: Sampler, pos0: seq<seq<real>>, lnprob0: Option<seq<real>>, iterations: nat, ds: seq<Draws>,
                    lnpost: seq<real> -> real, ln: real -> real, s': Sampler, trace: seq<Walkers>)
    requires Valid(s) && s.a != 0.0 && |ds| <= iterations
    requires Shaped(pos0, s.nwalkers, s.npars)
    requires lnprob0.Some? ==> |lnprob0.value| == s.nwalkers
    requires forall k :: 0 <= k < |ds| ==> DrawsFit(ds[k], s.nwalkers)
    requires Sample(s, pos0, lnprob0, iterations, ds, lnpost, ln) == Ok((s', trace))
    ensures |ds| == 0 ==> s' == s && trace == []
    ensures |ds| > 0 ==> var p := Pad(s, iterations);
      var w := Walkers(pos0, if lnprob0.None? then EnsembleLnPosterior(pos0, lnpost) else lnprob0.value);
      && Valid(p) && p.iterations + |ds| <= |p.chain| && WalkersShaped(w, s.nwalkers, s.npars)
      && Run(p, w, ds, lnpost, ln) == Ok((s', trace))
  {
  }

  /** The in-memory store after `sample`: once advanced, one slot per
      padded iteration, slot `iterations + t` holds the positions and the ln-posteriors
      yielded after the `t`-th consumed iteration, and the slots recorded
      before the call are kept. */
  lemma SampleRecords(s: Sampler, pos0: seq<seq<real>>, lnprob0: Option<seq<real>>, iterations: nat, ds: seq<Draws>,
                      lnpost: seq<real> -> real, ln: real -> real, s': Sampler, trace: seq<Walkers>)
    requires Valid(s) && s.a != 0.0 && |ds| <= iterations
    requires Shaped(pos0, s.nwalkers, s.npars)
    requires lnprob0.Some? ==> |lnprob0.value| == s.nwalkers
    requires forall k :: 0 <= k < |ds| ==> DrawsFit(ds[k], s.nwalkers)
    requires Sample(s, pos0, lnprob0, iterations, ds, lnpost, ln) == Ok((s', trace))
    ensures |s'.lnprobability| == |s'.chain| == |s.chain| + (if |ds| > 0 then iterations else 0) && |trace| == |ds|
    ensures forall t :: 0 <= t < |ds| ==>
      s'.chain[s.iterations + t] == trace[t].pos && s'.lnprobability[s.iterations + t] == trace[t].lnprob
    ensures forall t :: 0 <= t < s.iterations ==> s'.chain[t] == s.chain[t] && s'.lnprobability[t] == s.lnprobability[t]
  {
    SampleIsRun(s, pos0, lnprob0, iterations, ds, lnpost, ln, s', trace);
    if |ds| > 0 {
      PaddedRunRecords(s, iterations, Walkers(pos0, if lnprob0.None? then EnsembleLnPosterior(pos0, lnpost) else lnprob0.value),
                       ds, lnpost, ln, s', trace);
    }
  }

  /** `sample` leaves the slots recorded before the call alone. */
  lemma SampleKeepsOld(s: Sampler, pos0: seq<seq<real>>, lnprob0: Option<seq<real>>, iterations: nat, ds: seq<Draws>,
                       lnpost: seq<real> -> real, ln: real -> real, s': Sampler, trace: seq<Walkers>)
    requires Valid(s) && s.a != 0.0 && |ds| <= iterations
    requires Shaped(pos0, s.nwalkers, s.npars)
    requires lnprob0.Some? ==> |lnprob0.value| == s.nwalkers
    requires forall k :: 0 <= k < |ds| ==> DrawsFit(ds[k], s.nwalkers)
    requires Sample(s, pos0, lnprob0, iterations, ds, lnpost, ln) == Ok((s', trace))
    ensures |s'.chain| == |s'.lnprobability| == |s.chain| + (if |ds| > 0 then iterations else 0)
    ensures forall t :: 0 <= t < s.iterations ==> s'.chain[t] == s.chain[t] && s'.lnprobability[t] == s.lnprobability[t]
  {
    SampleIsRun(s, pos0, lnprob0, iterations, ds, lnpost, ln, s', trace);
    if |ds| > 0 {
      PaddedRunKeepsOld(s, iterations, Walkers(pos0, if lnprob0.None? then EnsembleLnPosterior(pos0, lnpost) else lnprob0.value),
                        ds, lnpost, ln, s', trace);
    }
  }

  /** What a run over the store padded by `iterations` slots records. */
  lemma PaddedRunRecords(s: Sampler, iterations: nat, w: Walkers, ds: seq<Draws>, lnpost: seq<real> -> real, ln: real -> real,
                         s': Sampler, trace: seq<Walkers>)
    requires Valid(s) && s.a != 0.0 && |ds| <= iterations
    requires WalkersShaped(w, s.nwalkers, s.npars)
    requires forall k :: 0 <= k < |ds| ==> DrawsFit(ds[k], s.nwalkers)
    requires Run(Pad(s, iterations), w, ds, lnpost, ln) == Ok((s', trace))
    ensures |s'.lnprobability| == |s'.chain| == |s.chain| + iterations && |trace| == |ds|
    ensures forall t :: 0 <= t < |ds| ==>
      s'.chain[s.iterations + t] == trace[t].pos && s'.lnprobability[s.iterations + t] == trace[t].lnprob
    ensures forall t :: 0 <= t < s.iterations ==> s'.chain[t] == s.chain[t] && s'.lnprobability[t] == s.lnprobability[t]
  {
    RunRecordsFrom(Pad(s, iterations), w, ds, lnpost, ln, s', trace, s.iterations);
    PaddedRunKeepsOld(s, iterations, w, ds, lnpost, ln, s', trace);
  }

  /** A run over the padded store leaves the slots recorded before the
      padding alone. */
  lemma PaddedRunKeepsOld(s: Sampler, iterations: nat, w: Walkers, ds: seq<Draws>, lnpost: seq<real> -> real, ln: real -> real,
                          s': Sampler, trace: seq<Walkers>)
    requires Valid(s) && s.a != 0.0 && |ds| <= iterations
    requires WalkersShaped(w, s.nwalkers, s.npars)
    requires forall k :: 0 <= k < |ds| ==> DrawsFit(ds[k], s.nwalkers)
    requires Run(Pad(s, iterations), w, ds, lnpost, ln) == Ok((s', trace))
    ensures |s'.chain| == |s'.lnprobability| == |s.chain| + iterations
    ensures forall t :: 0 <= t < s.iterations ==> s'.chain[t] == s.chain[t] && s'.lnprobability[t] == s.lnprobability[t]
  {
    var p := Pad(s, iterations);
    forall t | 0 <= t < s.iterations
      ensures s'.chain[t] == s.chain[t] && s'.lnprobability[t] == s.lnprobability[t]
    {
      RunKeeps(p, w, ds, lnpost, ln, s', trace, t);
      PadKeeps(s, iterations, t);
    }
  }

  /** The slots a run records, counted from `base`, its starting iteration. */
  lemma RunRecordsFrom(s: Sampler, w: Walkers, ds: seq<Draws>, lnpost: seq<real> -> real, ln: real -> real,
                       s': Sampler, trace: seq<Walkers>, base: nat)
    requires Valid(s) && s.a != 0.0 && s.iterations + |ds| <= |s.chain|
    requires WalkersShaped(w, s.nwalkers, s.npars)
    requires forall k :: 0 <= k < |ds| ==> DrawsFit(ds[k], s.nwalkers)
    requires Run(s, w, ds, lnpost, ln) == Ok((s', trace)) && base == s.iterations
    ensures |s'.lnprobability| == |s'.chain| == |s.chain| && |trace| == |ds|
    ensures forall t :: 0 <= t < |ds| ==>
      s'.chain[base + t] == trace[t].pos && s'.lnprobability[base + t] == trace[t].lnprob
  {
    forall t | 0 <= t < |ds|
      ensures s'.chain[base + t] == trace[t].pos && s'.lnprobability[base + t] == trace[t].lnprob
    {
      RunSlot(s, w, ds, lnpost, ln, s', trace, t);
    }
  }

  /** Padding keeps every slot already in the store. */
  lemma PadKeeps(s: Sampler, k: nat, t: nat)
    requires t < |s.chain| && |s.lnprobability| == |s.chain|
    ensures Pad(s, k).chain[t] == s.chain[t] && Pad(s, k).lnprobability[t] == s.lnprobability[t]
  {
    var p := Pad(s, k);
    assert p.chain[..|s.chain|][t] == s.chain[t];
    assert p.lnprobability[..|s.lnprobability|][t] == s.lnprobability[t];
  }
}
