/** The clustering step of markovpy/ensemble.py (`_clustering`, lines
    490-532): rank the walkers by ln-posterior, find the first walker that
    sits closer to the mean of the walkers below it than to the mean of the
    walkers above it, and resample every walker from that one down from a
    Gaussian fitted to the walkers above it until each of them has left the
    low cluster.

    The square root the standard deviation needs, the ln-posterior and the
    Gaussian draws are parameters.  `ClusterAsWritten` is the routine as the
    source has it, whose posterior calls pass one argument too many;
    `Cluster` is the routine with one-argument calls.
 */
module Clustering {
  import opened Results
  import opened Ensemble

  // ---------------------------------------------------------------------------
  // Ranking the walkers
  // ---------------------------------------------------------------------------

  /** Walker `i` ranks above walker `j`: a higher ln-posterior, or an equal
      one and a higher index (the reverse of a stable ascending argsort). */
  predicate Above(lp: seq<real>, i: nat, j: nat)
    requires i < |lp| && j < |lp|
  {
    lp[i] > lp[j] || (lp[i] == lp[j] && i > j)
  }

  /** `s` lists walkers of `lp` from the highest rank down. */
  ghost predicate Ranked(lp: seq<real>, s: seq<nat>) {
    && (forall a :: 0 <= a < |s| ==> s[a] < |lp|)
    && (forall a, b :: 0 <= a < b < |s| ==> Above(lp, s[a], s[b]))
  }

  /** The walker indices `0, 1, ..., n - 1`. */
  function Range(n: nat): (r: seq<nat>)
    ensures |r| == n && forall k :: 0 <= k < n ==> r[k] == k
  {
    seq(n, k => k)
  }

  /** Insert walker `i` into a ranked list that does not hold it yet. */
  function Insert(lp: seq<real>, i: nat, s: seq<nat>): (r: seq<nat>)
    requires i < |lp| && Ranked(lp, s) && i !in s
    ensures |r| == |s| + 1
    ensures multiset(r) == multiset(s) + multiset{i}
    ensures Ranked(lp, r)
  {
    if |s| == 0 then [i]
    else if Above(lp, i, s[0]) then
      RankedCons(lp, i, s);
      [i] + s
    else
      RankedTail(lp, s, i);
      var rest := Insert(lp, i, s[1..]);
      InsertBelow(lp, i, s, rest);
      [s[0]] + rest
  }

  /** The tail of a ranked list is ranked, and misses what the list misses. */
  lemma RankedTail(lp: seq<real>, s: seq<nat>, i: nat)
    requires |s| > 0 && Ranked(lp, s) && i !in s
    ensures Ranked(lp, s[1..]) && i !in s[1..]
  {
  }

  /** A walker that does not rank above the head of a ranked list goes into
      its tail. */
  lemma InsertBelow(lp: seq<real>, i: nat, s: seq<nat>, rest: seq<nat>)
    requires |s| > 0 && i < |lp| && Ranked(lp, s) && i !in s
    requires !Above(lp, i, s[0])
    requires multiset(rest) == multiset(s[1..]) + multiset{i} && Ranked(lp, rest)
    ensures multiset([s[0]] + rest) == multiset(s) + multiset{i}
    ensures Ranked(lp, [s[0]] + rest)
  {
    assert s == [s[0]] + s[1..];
    AboveAll(lp, s, i, rest);
    RankedCons(lp, s[0], rest);
  }

  /** The head of a ranked list ranks above every walker in a list holding
      the same walkers as its tail, plus one it ranks above. */
  lemma AboveAll(lp: seq<real>, s: seq<nat>, i: nat, rest: seq<nat>)
    requires |s| > 0 && i < |lp| && Ranked(lp, s) && i != s[0]
    requires !Above(lp, i, s[0])
    requires multiset(rest) == multiset(s[1..]) + multiset{i}
    ensures forall a :: 0 <= a < |rest| ==> rest[a] < |lp| && Above(lp, s[0], rest[a])
  {
    forall a | 0 <= a < |rest|
      ensures rest[a] < |lp| && Above(lp, s[0], rest[a])
    {
      assert rest[a] in multiset(rest);
      if rest[a] != i {
        assert rest[a] in s[1..];
        var b :| 0 <= b < |s[1..]| && s[1..][b] == rest[a];
        assert s[b + 1] == rest[a];
      }
    }
  }

  /** A walker that ranks above every walker of a ranked list can head it. */
  lemma RankedCons(lp: seq<real>, h: nat, s: seq<nat>)
    requires h < |lp| && Ranked(lp, s)
    requires forall a :: 0 <= a < |s| ==> Above(lp, h, s[a])
    ensures Ranked(lp, [h] + s)
  {
    var r := [h] + s;
    forall a, b | 0 <= a < b < |r|
      ensures Above(lp, r[a], r[b])
    {
      if a > 0 {
        assert r[a] == s[a - 1] && r[b] == s[b - 1];
      }
    }
  }

  /** The first `k` walkers, ranked. */
  function RankPrefix(lp: seq<real>, k: nat): (r: seq<nat>)
    requires k <= |lp|
    ensures |r| == k
    ensures multiset(r) == multiset(Range(k))
    ensures Ranked(lp, r)
  {
    if k == 0 then []
    else
      var s := RankPrefix(lp, k - 1);
      RangeStep(k - 1);
      assert k - 1 !in multiset(s);
      Insert(lp, k - 1, s)
  }

  /** `Range(j + 1)` is `Range(j)` and the new index `j`. */
  lemma RangeStep(j: nat)
    ensures multiset(Range(j + 1)) == multiset(Range(j)) + multiset{j}
    ensures j !in multiset(Range(j))
  {
    assert Range(j + 1) == Range(j) + [j];
  }

  /** `np.argsort(lnprob)[::-1]`: every walker once, from the highest
      ln-posterior down. */
  function RankDescending(lp: seq<real>): (inds: seq<nat>)
    ensures |inds| == |lp|
    ensures multiset(inds) == multiset(Range(|lp|))
    ensures Ranked(lp, inds)
  {
    RankPrefix(lp, |lp|)
  }

  /** A walker ranked above another has an ln-posterior at least as high. */
  lemma RankedMonotone(lp: seq<real>, s: seq<nat>, a: nat, b: nat)
    requires Ranked(lp, s) && a <= b < |s|
    ensures lp[s[a]] >= lp[s[b]]
  {
  }

  /** A permutation of the walker indices names every walker. */
  lemma RankedCovers(inds: seq<nat>, n: nat, w: nat)
    requires multiset(inds) == multiset(Range(n)) && w < n
    ensures w in inds
  {
    assert Range(n)[w] == w;
    assert w in multiset(Range(n));
  }

  // ---------------------------------------------------------------------------
  // Means and stuck walkers
  // ---------------------------------------------------------------------------

  function Sum(xs: seq<real>): real {
    if |xs| == 0 then 0.0 else xs[0] + Sum(xs[1..])
  }

  /** `np.mean` of a non-empty vector. */
  function Mean(xs: seq<real>): real
    requires |xs| > 0
  {
    Sum(xs) / |xs| as real
  }

  /** A sum of terms each at least `lo` is at least `|xs| lo`. */
  lemma {:induction false} SumAtLeast(xs: seq<real>, lo: real)
    requires forall k :: 0 <= k < |xs| ==> xs[k] >= lo
    ensures Sum(xs) >= |xs| as real * lo
  {
    if |xs| > 0 {
      SumAtLeast(xs[1..], lo);
      CountStep(|xs| - 1, lo);
    }
  }

  /** A sum of terms each at most `hi` is at most `|xs| hi`. */
  lemma {:induction false} SumAtMost(xs: seq<real>, hi: real)
    requires forall k :: 0 <= k < |xs| ==> xs[k] <= hi
    ensures Sum(xs) <= |xs| as real * hi
  {
    if |xs| > 0 {
      SumAtMost(xs[1..], hi);
      CountStep(|xs| - 1, hi);
    }
  }

  /** A sum of terms at least `lo`, one of them above it, exceeds `|xs| lo`. */
  lemma {:induction false} SumAbove(xs: seq<real>, lo: real, k: nat)
    requires forall j :: 0 <= j < |xs| ==> xs[j] >= lo
    requires k < |xs| && xs[k] > lo
    ensures Sum(xs) > |xs| as real * lo
  {
    if k == 0 {
      SumAtLeast(xs[1..], lo);
    } else {
      SumAbove(xs[1..], lo, k - 1);
    }
    CountStep(|xs| - 1, lo);
  }

  /** `(m + 1) x = x + m x`. */
  lemma CountStep(m: nat, x: real)
    ensures (m + 1) as real * x == x + m as real * x
  {
  }

  lemma DivAtLeast(x: real, n: real, lo: real)
    requires n > 0.0 && x >= n * lo
    ensures x / n >= lo
  {
  }

  lemma DivAtMost(x: real, n: real, hi: real)
    requires n > 0.0 && x <= n * hi
    ensures x / n <= hi
  {
  }

  lemma DivAbove(x: real, n: real, lo: real)
    requires n > 0.0 && x > n * lo
    ensures x / n > lo
  {
  }

  /** The mean of values at least `lo` is at least `lo`. */
  lemma MeanAtLeast(xs: seq<real>, lo: real)
    requires |xs| > 0 && forall k :: 0 <= k < |xs| ==> xs[k] >= lo
    ensures Mean(xs) >= lo
  {
    SumAtLeast(xs, lo);
    DivAtLeast(Sum(xs), |xs| as real, lo);
  }

  /** The mean of values at most `hi` is at most `hi`. */
  lemma MeanAtMost(xs: seq<real>, hi: real)
    requires |xs| > 0 && forall k :: 0 <= k < |xs| ==> xs[k] <= hi
    ensures Mean(xs) <= hi
  {
    SumAtMost(xs, hi);
    DivAtMost(Sum(xs), |xs| as real, hi);
  }

  /** The mean of values at least `lo`, one of them above it, is above `lo`:
      a mean equal to the minimum means every value is the minimum. */
  lemma MeanAbove(xs: seq<real>, lo: real, k: nat)
    requires forall j :: 0 <= j < |xs| ==> xs[j] >= lo
    requires k < |xs| && xs[k] > lo
    ensures Mean(xs) > lo
  {
    SumAbove(xs, lo, k);
    DivAbove(Sum(xs), |xs| as real, lo);
  }

  /** `x[s]` for a list of walkers `s`: `lnprob[s]`, or `position[s, :]`
      when `x` is the ensemble's rows. */
  function Values<T>(lp: seq<T>, s: seq<nat>): (v: seq<T>)
    requires forall k :: 0 <= k < |s| ==> s[k] < |lp|
    ensures |v| == |s| && forall k :: 0 <= k < |s| ==> v[k] == lp[s[k]]
  {
    seq(|s|, k requires 0 <= k < |s| => lp[s[k]])
  }

  /** `big_mean` at rank `i`: the mean ln-posterior of the walkers above it. */
  function BigMean(lp: seq<real>, inds: seq<nat>, i: nat): real
    requires Ranked(lp, inds) && 0 < i < |inds|
  {
    Mean(Values(lp, inds[..i]))
  }

  /** `small_mean` at rank `i`: the mean ln-posterior of the walkers below it. */
  function SmallMean(lp: seq<real>, inds: seq<nat>, i: nat): real
    requires Ranked(lp, inds) && i < |inds| - 1
  {
    Mean(Values(lp, inds[i + 1..]))
  }

  /** A walker at `x` is stuck when it lies closer to the mean `small`
      below it than to the mean `big` above it: the condition on which the
      split loop breaks (line 505) and the rescue loop redraws (line 528). */
  predicate Stuck(big: real, small: real, x: real) {
    big - x > x - small
  }

  /** The walker at rank `i` is stuck against the means around it. */
  predicate GapAt(lp: seq<real>, inds: seq<nat>, i: nat)
    requires Ranked(lp, inds) && 0 < i < |inds| - 1
  {
    Stuck(BigMean(lp, inds, i), SmallMean(lp, inds, i), lp[inds[i]])
  }

  /** In a ranked list the walker at rank `i` lies between the two means
      around it. */
  lemma MeansAround(lp: seq<real>, inds: seq<nat>, i: nat)
    requires Ranked(lp, inds) && 0 < i < |inds| - 1
    ensures BigMean(lp, inds, i) >= lp[inds[i]] >= SmallMean(lp, inds, i)
  {
    var x := lp[inds[i]];
    var above, below := Values(lp, inds[..i]), Values(lp, inds[i + 1..]);
    forall k | 0 <= k < |above|
      ensures above[k] >= x
    {
      RankedMonotone(lp, inds, k, i);
    }
    forall k | 0 <= k < |below|
      ensures below[k] <= x
    {
      RankedMonotone(lp, inds, i, i + 1 + k);
    }
    MeanAtLeast(above, x);
    MeanAtMost(below, x);
  }

  /** A walker is stuck exactly when `x` lies below the midpoint of the
      two means. */
  lemma StuckBelowMidpoint(big: real, small: real, x: real)
    ensures Stuck(big, small, x) <==> x < (big + small) / 2.0
  {
  }

  /** A walker is stuck exactly when it lies below the midpoint of
      the means around it, and then it lies strictly below the mean of the
      walkers above it. */
  lemma GapAtBelowBig(lp: seq<real>, inds: seq<nat>, i: nat)
    requires Ranked(lp, inds) && 0 < i < |inds| - 1
    ensures GapAt(lp, inds, i) <==> lp[inds[i]] < (BigMean(lp, inds, i) + SmallMean(lp, inds, i)) / 2.0
    ensures GapAt(lp, inds, i) ==> SmallMean(lp, inds, i) <= lp[inds[i]] < BigMean(lp, inds, i)
  {
    MeansAround(lp, inds, i);
    StuckBelowMidpoint(BigMean(lp, inds, i), SmallMean(lp, inds, i), lp[inds[i]]);
  }

  // ---------------------------------------------------------------------------
  // The split
  // ---------------------------------------------------------------------------

  /** Where the ranked walkers split (`i` after the loop) and the means the
      loop left behind in `big_mean` and `small_mean`. */
  datatype Split = Split(at: nat, big: real, small: real)

  /** The rank at which the means are taken when the split lands at `at`:
      the loop's last evaluated rank. */
  function MeansRank(n: nat, at: nat): nat
    requires n >= 2
  {
    if at < n - 1 then at else n - 2
  }

  /** The loop of lines 501-506 from rank `i` on: stop at the first rank
      below `n - 1` whose walker is stuck, or run off the end with
      `i = n - 1` and the means of rank `n - 2`. */
  function ScanFrom(lp: seq<real>, inds: seq<nat>, i: nat): (sp: Split)
    requires Ranked(lp, inds) && |inds| >= 3 && 1 <= i <= |inds| - 1
    ensures i <= sp.at <= |inds| - 1
    ensures sp.at < |inds| - 1 ==> GapAt(lp, inds, sp.at)
    ensures forall j :: i <= j < sp.at && j < |inds| - 1 ==> !GapAt(lp, inds, j)
    ensures var m := MeansRank(|inds|, sp.at);
      0 < m < |inds| - 1 && sp.big == BigMean(lp, inds, m) && sp.small == SmallMean(lp, inds, m)
    decreases |inds| - i
  {
    var n := |inds|;
    if i == n - 1 then Split(n - 1, BigMean(lp, inds, n - 2), SmallMean(lp, inds, n - 2))
    else if GapAt(lp, inds, i) then Split(i, BigMean(lp, inds, i), SmallMean(lp, inds, i))
    else ScanFrom(lp, inds, i + 1)
  }

  /** The split of a ranked list: `UnboundLocalError` below three walkers,
      since the loop then never evaluates the means and `big_mean` is
      unbound when the rescue loop reads it (with no walkers at all `i`
      itself is unbound). */
  function FindSplit(lp: seq<real>, inds: seq<nat>): (r: Result<Split>)
    requires Ranked(lp, inds)
    ensures r.Ok? <==> |inds| >= 3
    ensures r.Err? ==> r.error == UnboundLocal
    ensures r.Ok? ==> 1 <= r.value.at <= |inds| - 1
    ensures r.Ok? ==> r.value.at < |inds| - 1 ==> GapAt(lp, inds, r.value.at)
    ensures r.Ok? ==> forall j :: 1 <= j < r.value.at && j < |inds| - 1 ==> !GapAt(lp, inds, j)
  {
    if |inds| <= 2 then Err(UnboundLocal) else Ok(ScanFrom(lp, inds, 1))
  }

  /** The good walkers `inds[:i]` rank no lower than the bad ones `inds[i:]`:
      each good walker's ln-posterior is at least each bad walker's. */
  lemma GoodAboveBad(lp: seq<real>, inds: seq<nat>, at: nat)
    requires Ranked(lp, inds) && at <= |inds|
    ensures forall g, b :: g in inds[..at] && b in inds[at..] ==> lp[g] >= lp[b]
  {
    forall g, b | g in inds[..at] && b in inds[at..]
      ensures lp[g] >= lp[b]
    {
      var x :| 0 <= x < at && inds[x] == g;
      var y :| at <= y < |inds| && inds[y] == b;
      RankedMonotone(lp, inds, x, y);
    }
  }

  // ---------------------------------------------------------------------------
  // The Gaussian the bad walkers are redrawn from
  // ---------------------------------------------------------------------------

  /** Column `c` of the rows. */
  function Column(rows: seq<seq<real>>, c: nat): (col: seq<real>)
    requires forall r :: 0 <= r < |rows| ==> c < |rows[r]|
    ensures |col| == |rows| && forall r :: 0 <= r < |rows| ==> col[r] == rows[r][c]
  {
    seq(|rows|, r requires 0 <= r < |rows| => rows[r][c])
  }

  /** `np.mean(rows, axis=0)`. */
  function ColumnMeans(rows: seq<seq<real>>, d: nat): (m: seq<real>)
    requires |rows| > 0 && forall r :: 0 <= r < |rows| ==> |rows[r]| == d
    ensures |m| == d
  {
    seq(d, c requires 0 <= c < d => Mean(Column(rows, c)))
  }

  function Square(x: real): (y: real)
    ensures y >= 0.0
  {
    x * x
  }

  /** The population variance of every column (`np.std` squared, with
      NumPy's default of no degrees-of-freedom correction). */
  function ColumnVariances(rows: seq<seq<real>>, d: nat): (v: seq<real>)
    requires |rows| > 0 && forall r :: 0 <= r < |rows| ==> |rows[r]| == d
    ensures |v| == d && forall c :: 0 <= c < d ==> v[c] >= 0.0
  {
    var m := ColumnMeans(rows, d);
    seq(d, c requires 0 <= c < d => Variance(Column(rows, c), m[c]))
  }

  /** The mean squared deviation from `m`. */
  function Variance(xs: seq<real>, m: real): (v: real)
    requires |xs| > 0
    ensures v >= 0.0
  {
    var sq := seq(|xs|, r requires 0 <= r < |xs| => Square(xs[r] - m));
    MeanAtLeast(sq, 0.0);
    Mean(sq)
  }

  /** A Gaussian with a centre and a per-coordinate spread. */
  datatype Gaussian = Gaussian(center: seq<real>, spread: seq<real>)

  /** The Gaussian fitted to the rows: their mean and standard deviation
      (`sqrt` is the square root). */
  function Fit(rows: seq<seq<real>>, d: nat, sqrt: real -> real): (g: Gaussian)
    requires |rows| > 0 && forall r :: 0 <= r < |rows| ==> |rows[r]| == d
    ensures |g.center| == d && |g.spread| == d
  {
    var v := ColumnVariances(rows, d);
    Gaussian(ColumnMeans(rows, d), seq(d, c requires 0 <= c < d => sqrt(v[c])))
  }

  /** `mean + std * randn(npars)` for the standard normal draw `z`. */
  function Candidate(g: Gaussian, z: seq<real>): (y: seq<real>)
    requires |g.spread| == |g.center| && |z| == |g.center|
    ensures |y| == |g.center|
    ensures forall c :: 0 <= c < |y| && g.spread[c] == 0.0 ==> y[c] == g.center[c]
  {
    seq(|g.center|, c requires 0 <= c < |g.center| => g.center[c] + g.spread[c] * z[c])
  }

  /** The sum of `n` copies of `x` is `n x`. */
  lemma {:induction false} SumOfCopies(xs: seq<real>, x: real)
    requires forall k :: 0 <= k < |xs| ==> xs[k] == x
    ensures Sum(xs) == |xs| as real * x
  {
    if |xs| > 0 {
      SumOfCopies(xs[1..], x);
    }
  }

  /** Good walkers that all sit at one point fit a Gaussian centred there
      with zero variance in every coordinate. */
  lemma FitOfCopies(rows: seq<seq<real>>, d: nat, x: seq<real>)
    requires |rows| > 0 && |x| == d && forall r :: 0 <= r < |rows| ==> rows[r] == x
    ensures ColumnMeans(rows, d) == x
    ensures forall c :: 0 <= c < d ==> ColumnVariances(rows, d)[c] == 0.0
  {
    var m := ColumnMeans(rows, d);
    forall c | 0 <= c < d
      ensures m[c] == x[c]
    {
      SumOfCopies(Column(rows, c), x[c]);
    }
    var v := ColumnVariances(rows, d);
    forall c | 0 <= c < d
      ensures v[c] == 0.0
    {
      var sq := seq(|rows|, r requires 0 <= r < |rows| => Square(Column(rows, c)[r] - m[c]));
      SumOfCopies(sq, 0.0);
    }
  }

  // ---------------------------------------------------------------------------
  // The rescue loop
  // ---------------------------------------------------------------------------

  /** Lines 527-530: for each bad walker in turn, redraw it from the fitted
      Gaussian while it is stuck, re-evaluating its ln-posterior
      each time.  The standard normal vectors come from `normals`, in
      order; running out of them is `DrawsExhausted`.  Returns the
      positions, the ln-posteriors and the number of vectors used. */
  method Rescue(pos: seq<seq<real>>, lp: seq<real>, bad: seq<nat>, big: real, small: real,
                fit: Gaussian, normals: seq<seq<real>>, lnpost: seq<real> -> real)
    returns (r: Result<(seq<seq<real>>, seq<real>, nat)>)
    requires |lp| == |pos| && forall k :: 0 <= k < |bad| ==> bad[k] < |pos|
    requires |fit.spread| == |fit.center|
    requires forall w :: 0 <= w < |pos| ==> |pos[w]| == |fit.center|
    requires forall g :: 0 <= g < |normals| ==> |normals[g]| == |fit.center|
    ensures r.Err? ==> r.error == DrawsExhausted
    ensures r.Ok? ==> r.value.2 <= |normals| && |r.value.0| == |pos| && |r.value.1| == |lp|
    ensures r.Ok? ==> forall w :: 0 <= w < |pos| ==> |r.value.0[w]| == |fit.center|
    ensures r.Ok? ==> forall k :: 0 <= k < |bad| ==> !Stuck(big, small, r.value.1[bad[k]])
    ensures r.Ok? ==> forall w :: 0 <= w < |pos| && w !in bad ==> r.value.0[w] == pos[w] && r.value.1[w] == lp[w]
    ensures r.Ok? ==> forall w :: 0 <= w < |pos| ==>
      (r.value.0[w] == pos[w] && r.value.1[w] == lp[w]) ||
      (r.value.1[w] == lnpost(r.value.0[w]) &&
       exists g :: 0 <= g < r.value.2 && r.value.0[w] == Candidate(fit, normals[g]))
    ensures |bad| <= |normals| && (forall g :: 0 <= g < |normals| ==> !Stuck(big, small, lnpost(Candidate(fit, normals[g]))))
      ==> r.Ok?
  {
    ghost var enough := |bad| <= |normals| && forall g :: 0 <= g < |normals| ==> !Stuck(big, small, lnpost(Candidate(fit, normals[g])));
    var p, l, next := pos, lp, 0;
    var k := 0;
    while k < |bad|
      invariant k <= |bad| && next <= |normals| && |p| == |pos| && |l| == |lp|
      invariant forall w :: 0 <= w < |pos| ==> |p[w]| == |fit.center|
      invariant forall j :: 0 <= j < k ==> !Stuck(big, small, l[bad[j]])
      invariant forall w :: 0 <= w < |pos| && w !in bad ==> p[w] == pos[w] && l[w] == lp[w]
      invariant forall w :: 0 <= w < |pos| ==>
        (p[w] == pos[w] && l[w] == lp[w]) ||
        (l[w] == lnpost(p[w]) && exists g :: 0 <= g < next && p[w] == Candidate(fit, normals[g]))
      invariant enough ==> next <= k
    {
      var b := bad[k];
      while Stuck(big, small, l[b])
        invariant next <= |normals| && |p| == |pos| && |l| == |lp|
        invariant forall w :: 0 <= w < |pos| ==> |p[w]| == |fit.center|
        invariant forall j :: 0 <= j < k ==> bad[j] == b || !Stuck(big, small, l[bad[j]])
        invariant forall w :: 0 <= w < |pos| && w !in bad ==> p[w] == pos[w] && l[w] == lp[w]
        invariant forall w :: 0 <= w < |pos| ==>
          (p[w] == pos[w] && l[w] == lp[w]) ||
          (l[w] == lnpost(p[w]) && exists g :: 0 <= g < next && p[w] == Candidate(fit, normals[g]))
        invariant enough ==> next <= k + 1 && (next == k + 1 ==> !Stuck(big, small, l[b]))
        decreases |normals| - next
      {
        if next == |normals| {
          return Err(DrawsExhausted);
        }
        p := p[b := Candidate(fit, normals[next])];
        l := l[b := lnpost(p[b])];
        next := next + 1;
      }
      k := k + 1;
    }
    return Ok((p, l, next));
  }

  // ---------------------------------------------------------------------------
  // The whole routine
  // ---------------------------------------------------------------------------

  /** The ln-posteriors clustering starts from: the given ones, or every
      walker's evaluated in walker order when none are given. */
  function StartLnProb(pos: seq<seq<real>>, lnprob0: Option<seq<real>>, lnpost: seq<real> -> real): (lp: seq<real>)
    requires lnprob0.Some? ==> |lnprob0.value| == |pos|
    ensures |lp| == |pos|
    ensures lnprob0.None? ==> forall w :: 0 <= w < |pos| ==> lp[w] == lnpost(pos[w])
  {
    if lnprob0.None? then EnsembleLnPosterior(pos, lnpost) else lnprob0.value
  }

  /** Everything the routine decides before it redraws anyone. */
  datatype Plan = Plan(lp: seq<real>, inds: seq<nat>, split: Split, fit: Gaussian)

  /** Lines 495-525: the starting ln-posteriors, the ranking, the split and
      the Gaussian fitted to the good walkers. */
  function Prepare(pos: seq<seq<real>>, d: nat, lnprob0: Option<seq<real>>,
                   lnpost: seq<real> -> real, sqrt: real -> real): (r: Result<Plan>)
    requires Shaped(pos, |pos|, d)
    requires lnprob0.Some? ==> |lnprob0.value| == |pos|
    ensures r.Ok? <==> |pos| >= 3
    ensures r.Err? ==> r.error == UnboundLocal
    ensures r.Ok? ==> r.value.lp == StartLnProb(pos, lnprob0, lnpost)
    ensures r.Ok? ==> |r.value.inds| == |pos| && forall k :: 0 <= k < |pos| ==> r.value.inds[k] < |pos|
    ensures r.Ok? ==> 1 <= r.value.split.at < |pos|
    ensures r.Ok? ==> |r.value.fit.center| == d && |r.value.fit.spread| == d
  {
    var lp := StartLnProb(pos, lnprob0, lnpost);
    var inds := RankDescending(lp);
    match FindSplit(lp, inds)
    case Err(e) => Err(e)
    case Ok(sp) => Ok(Plan(lp, inds, sp, Fit(Values(pos, inds[..sp.at]), d, sqrt)))
  }

  /** The plan ranks every walker once, from the highest ln-posterior down,
      and splits the ranking at the first stuck rank. */
  lemma PrepareRanks(pos: seq<seq<real>>, d: nat, lnprob0: Option<seq<real>>,
                     lnpost: seq<real> -> real, sqrt: real -> real, plan: Plan)
    requires Shaped(pos, |pos|, d)
    requires lnprob0.Some? ==> |lnprob0.value| == |pos|
    requires Prepare(pos, d, lnprob0, lnpost, sqrt) == Ok(plan)
    ensures multiset(plan.inds) == multiset(Range(|pos|)) && Ranked(plan.lp, plan.inds)
    ensures FindSplit(plan.lp, plan.inds) == Ok(plan.split)
  {
  }

  /** What clustering returns: the new positions and ln-posteriors, the good
      and bad walkers, the split and how many normal vectors it drew. */
  datatype Clustered = Clustered(pos: seq<seq<real>>, lnprob: seq<real>, good: seq<nat>, bad: seq<nat>,
                                 split: Split, used: nat)

  /** The good and bad walkers of `c` split the ranking of `lp` at the
      first stuck rank: together they are every walker once, highest
      first, both are non-empty, and no bad walker ranks above a good one. */
  ghost predicate SplitBy(lp: seq<real>, c: Clustered) {
    && multiset(c.good + c.bad) == multiset(Range(|lp|))
    && Ranked(lp, c.good + c.bad)
    && FindSplit(lp, c.good + c.bad) == Ok(c.split) && |c.good| == c.split.at
    && |c.good| >= 1 && |c.bad| >= 1
    && (forall g, b :: g in c.good && b in c.bad ==> lp[g] >= lp[b])
  }

  /** `c` is `pos`, `lp` after the rescue: shapes kept, no bad walker is
      stuck any more, good walkers untouched, and every changed walker
      sits at a candidate of the fitted Gaussian with its ln-posterior
      evaluated there. */
  ghost predicate RescuedFrom(pos: seq<seq<real>>, d: nat, lp: seq<real>, fit: Gaussian,
                              normals: seq<seq<real>>, lnpost: seq<real> -> real, c: Clustered)
    requires |fit.spread| == |fit.center| && forall g :: 0 <= g < |normals| ==> |normals[g]| == |fit.center|
  {
    && Shaped(c.pos, |pos|, d) && |c.lnprob| == |pos| && |lp| == |pos| && c.used <= |normals|
    && (forall k :: 0 <= k < |c.bad| ==> c.bad[k] < |pos| && !Stuck(c.split.big, c.split.small, c.lnprob[c.bad[k]]))
    && (forall w :: w in c.good && w < |pos| ==> c.pos[w] == pos[w] && c.lnprob[w] == lp[w])
    && (forall w :: 0 <= w < |pos| ==>
          (c.pos[w] == pos[w] && c.lnprob[w] == lp[w]) ||
          (c.lnprob[w] == lnpost(c.pos[w]) &&
           exists g :: 0 <= g < c.used && c.pos[w] == Candidate(fit, normals[g])))
  }

  /** Lines 509-530 for a prepared plan: the walkers from the split down are
      the bad ones, and the rescue loop redraws them. */
  method RescuePlan(pos: seq<seq<real>>, d: nat, plan: Plan, normals: seq<seq<real>>, lnpost: seq<real> -> real)
    returns (r: Result<Clustered>)
    requires Shaped(pos, |pos|, d) && |plan.lp| == |pos| && Ranked(plan.lp, plan.inds)
    requires |plan.inds| == |pos| && 1 <= plan.split.at < |pos|
    requires |plan.fit.center| == d && |plan.fit.spread| == d
    requires forall g :: 0 <= g < |normals| ==> |normals[g]| == d
    ensures r.Err? ==> r.error == DrawsExhausted
    ensures r.Ok? ==> r.value.split == plan.split
    ensures r.Ok? ==> r.value.good == plan.inds[..plan.split.at] && r.value.bad == plan.inds[plan.split.at..]
    ensures r.Ok? ==> RescuedFrom(pos, d, plan.lp, plan.fit, normals, lnpost, r.value)
    ensures |normals| + 1 >= |pos| &&
      (forall g :: 0 <= g < |normals| ==> !Stuck(plan.split.big, plan.split.small, lnpost(Candidate(plan.fit, normals[g]))))
      ==> r.Ok?
  {
    var inds, sp := plan.inds, plan.split;
    var good, bad := inds[..sp.at], inds[sp.at..];
    var res := Rescue(pos, plan.lp, bad, sp.big, sp.small, plan.fit, normals, lnpost);
    if res.Err? {
      return Err(res.error);
    }
    var (p, l, used) := res.value;
    var c := Clustered(p, l, good, bad, sp, used);
    forall w | w in good
      ensures w !in bad
    {
      GoodNotBad(plan.lp, inds, sp.at, w);
    }
    return Ok(c);
  }

  /** A ranking names no walker twice, so the good walkers are not bad. */
  lemma GoodNotBad(lp: seq<real>, inds: seq<nat>, at: nat, w: nat)
    requires Ranked(lp, inds) && at <= |inds| && w in inds[..at]
    ensures w !in inds[at..]
  {
  }

  /** `_clustering` with the ln-posterior called on the position alone.
      The bad walkers `inds[i:]` are redrawn until none of them is stuck;
      the good ones `inds[:i]` keep their positions. */
  method Cluster(pos: seq<seq<real>>, d: nat, lnprob0: Option<seq<real>>, normals: seq<seq<real>>,
                 lnpost: seq<real> -> real, sqrt: real -> real)
    returns (r: Result<Clustered>)
    requires Shaped(pos, |pos|, d)
    requires lnprob0.Some? ==> |lnprob0.value| == |pos|
    requires forall g :: 0 <= g < |normals| ==> |normals[g]| == d
    ensures r.Err? ==> r.error == (if |pos| <= 2 then UnboundLocal else DrawsExhausted)
    ensures |pos| <= 2 ==> r.Err?
    ensures r.Ok? ==> |pos| >= 3 && SplitBy(StartLnProb(pos, lnprob0, lnpost), r.value)
    ensures r.Ok? ==> (|pos| >= 3 &&
      RescuedFrom(pos, d, StartLnProb(pos, lnprob0, lnpost), Prepare(pos, d, lnprob0, lnpost, sqrt).value.fit, normals, lnpost, r.value))
    ensures |pos| >= 3 && |normals| + 1 >= |pos| ==>
      var plan := Prepare(pos, d, lnprob0, lnpost, sqrt).value;
      (forall g :: 0 <= g < |normals| ==> !Stuck(plan.split.big, plan.split.small, lnpost(Candidate(plan.fit, normals[g]))))
      ==> r.Ok?
  {
    var prep := Prepare(pos, d, lnprob0, lnpost, sqrt);
    if prep.Err? {
      return Err(prep.error);
    }
    var plan := prep.value;
    PrepareRanks(pos, d, lnprob0, lnpost, sqrt, plan);
    r := RescuePlan(pos, d, plan, normals, lnpost);
    if r.Ok? {
      PlanSplits(plan.lp, plan.inds, r.value);
    }
  }

  /** Cutting the ranking at the first stuck rank gives `SplitBy`. */
  lemma PlanSplits(lp: seq<real>, inds: seq<nat>, c: Clustered)
    requires multiset(inds) == multiset(Range(|lp|)) && Ranked(lp, inds)
    requires FindSplit(lp, inds) == Ok(c.split)
    requires c.good == inds[..c.split.at] && c.bad == inds[c.split.at..]
    ensures SplitBy(lp, c)
  {
    assert inds == c.good + c.bad;
    GoodAboveBad(lp, inds, c.split.at);
  }

  // ---------------------------------------------------------------------------
  // The routine as written
  // ---------------------------------------------------------------------------

  /** `_clustering` as the source has it.  Both posterior calls pass
      `(position, self.postargs)` to a wrapper that takes the position alone,
      so each raises TypeError (`PosteriorArity`): the first when no
      ln-posteriors are given and there is a walker, the second as soon as
      the rescue loop finds a bad walker that is stuck.  When it
      returns, it returns its inputs unchanged. */
  function ClusterAsWritten(pos: seq<seq<real>>, lnprob0: Option<seq<real>>): (r: Result<(seq<seq<real>>, seq<real>)>)
    requires lnprob0.Some? ==> |lnprob0.value| == |pos|
    ensures lnprob0.None? ==> r.Err?
    ensures r.Err? ==> r.error == (if (lnprob0.None? && |pos| > 0) || |pos| >= 3 then PosteriorArity else UnboundLocal)
    ensures r.Ok? ==> r.value == (pos, lnprob0.value)
  {
    if lnprob0.None? then
      if |pos| > 0 then Err(PosteriorArity) else Err(UnboundLocal)
    else
      var lp := lnprob0.value;
      var inds := RankDescending(lp);
      match FindSplit(lp, inds)
      case Err(e) => Err(e)
      case Ok(sp) =>
        if exists k :: sp.at <= k < |inds| && Stuck(sp.big, sp.small, lp[inds[k]]) then Err(PosteriorArity)
        else Ok((pos, lp))
  }

  /** The routine as written returns only for ensembles whose walkers all
      share one ln-posterior: any split above the last rank leaves a bad
      walker stuck, and under the fall-through split the lowest walker is
      not stuck only when the mean of the top walkers equals the lowest value. */
  lemma ClusterAsWrittenOnlyFlat(pos: seq<seq<real>>, lnprob0: Option<seq<real>>)
    requires lnprob0.Some? ==> |lnprob0.value| == |pos|
    requires ClusterAsWritten(pos, lnprob0).Ok?
    ensures lnprob0.Some? && |pos| >= 3
    ensures forall w, v :: 0 <= w < |pos| && 0 <= v < |pos| ==> lnprob0.value[w] == lnprob0.value[v]
  {
    var lp := lnprob0.value;
    var inds := RankDescending(lp);
    var n := |inds|;
    var sp := FindSplit(lp, inds).value;
    assert sp.at == n - 1;
    assert !Stuck(sp.big, sp.small, lp[inds[n - 1]]);
    FlatWhenLastPasses(lp, inds);
  }

  /** When the lowest walker is not stuck against the means of rank
      `n - 2`, every walker has the lowest ln-posterior. */
  lemma FlatWhenLastPasses(lp: seq<real>, inds: seq<nat>)
    requires |inds| == |lp| >= 3 && Ranked(lp, inds) && multiset(inds) == multiset(Range(|lp|))
    requires !Stuck(BigMean(lp, inds, |lp| - 2), SmallMean(lp, inds, |lp| - 2), lp[inds[|lp| - 1]])
    ensures forall w :: 0 <= w < |lp| ==> lp[w] == lp[inds[|lp| - 1]]
  {
    var n := |lp|;
    var x := lp[inds[n - 1]];
    assert Values(lp, inds[n - 1..]) == [x];
    assert Sum([x]) == x + Sum([]);
    assert SmallMean(lp, inds, n - 2) == x;
    TopAtMin(lp, inds, x);
    forall w | 0 <= w < n
      ensures lp[w] == x
    {
      RankedCovers(inds, n, w);
      var k :| 0 <= k < n && inds[k] == w;
      if k == n - 2 {
        RankedMonotone(lp, inds, 0, k);
        RankedMonotone(lp, inds, k, n - 1);
      }
    }
  }

  /** The top `n - 2` walkers, none below the lowest value `x`, average to at
      most `x` only if each of them is `x`. */
  lemma TopAtMin(lp: seq<real>, inds: seq<nat>, x: real)
    requires |inds| >= 3 && Ranked(lp, inds) && x == lp[inds[|inds| - 1]]
    requires BigMean(lp, inds, |inds| - 2) <= x
    ensures forall j :: 0 <= j < |inds| - 2 ==> lp[inds[j]] == x
  {
    var n := |inds|;
    var top := Values(lp, inds[..n - 2]);
    forall k | 0 <= k < |top|
      ensures top[k] >= x
    {
      RankedMonotone(lp, inds, k, n - 1);
    }
    forall j | 0 <= j < n - 2
      ensures lp[inds[j]] == x
    {
      if top[j] > x {
        MeanAbove(top, x, j);
      }
    }
  }

  /** One walker far below two others (ln-posteriors 0, 0 and -10^6): the
      fall-through split makes it the bad walker, it is stuck, and
      the routine as written raises TypeError on its first redraw. */
  lemma ClusterAsWrittenRejectsOutlier()
    ensures ClusterAsWritten([[0.0], [0.0], [0.0]], Some([0.0, 0.0, -1000000.0])) == Err(PosteriorArity)
  {
    var pos, lp := [[0.0], [0.0], [0.0]], [0.0, 0.0, -1000000.0];
    if ClusterAsWritten(pos, Some(lp)).Ok? {
      ClusterAsWrittenOnlyFlat(pos, Some(lp));
    }
  }
}
