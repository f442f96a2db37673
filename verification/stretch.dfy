/** The stretch move of Goodman & Weare for one walker: choosing a partner,
    drawing the stretch factor, forming the proposal and pinning the fixed
    dimensions (markovpy/ensemble.py, lines 357-366).

    Positions are mathematical reals; the random draws are parameters.
 */
module StretchMove {
  import opened Results

  // ---------------------------------------------------------------------------
  // Partner selection
  // ---------------------------------------------------------------------------

  /** The partner of walker `i` among `n` walkers for the integer draw `r`,
      which NumPy's `randint(n - 1)` takes from [0, n - 2]: draws at or above
      `i` are shifted up by one, so the walker never pairs with itself. */
  function Partner(n: nat, i: nat, r: nat): (j: nat)
    requires i < n && r < n - 1
    ensures j < n && j != i
    ensures j == r || j == r + 1
  {
    if r >= i then r + 1 else r
  }

  /** The draw that makes walker `i` pick partner `j`: the inverse of `Partner`. */
  function PartnerDraw(n: nat, i: nat, j: nat): (r: nat)
    requires i < n && j < n && j != i
    ensures r < n - 1
  {
    if j > i then j - 1 else j
  }

  /** The draw-to-partner map is a bijection from [0, n - 1) onto the other
      walkers, so a uniform draw gives a uniform choice of partner. */
  lemma PartnerBijection(n: nat, i: nat)
    requires i < n
    ensures forall r :: 0 <= r < n - 1 ==> PartnerDraw(n, i, Partner(n, i, r)) == r
    ensures forall r1, r2 :: 0 <= r1 < n - 1 && 0 <= r2 < n - 1 && Partner(n, i, r1) == Partner(n, i, r2) ==> r1 == r2
    ensures forall j :: 0 <= j < n && j != i ==> Partner(n, i, PartnerDraw(n, i, j)) == j
  {
  }

  // ---------------------------------------------------------------------------
  // Stretch factor
  // ---------------------------------------------------------------------------

  /** `z = ((a - 1) u + 1)^2 / a` for a uniform draw `u`: the draw 0 maps
      to the lower end `1/a` of the stretch range and the draw 1 to the
      upper end `a`. */
  function StretchFactor(a: real, u: real): (z: real)
    requires a != 0.0
  {
    var t := (a - 1.0) * u + 1.0;
    t * t / a
  }

  /** For a scale `a > 1` and a draw in [0, 1) the stretch lies in [1/a, a);
      in particular it is positive, so its logarithm in the acceptance test
      is finite. */
  lemma StretchFactorBounds(a: real, u: real)
    requires a > 1.0 && 0.0 <= u < 1.0
    ensures 1.0 / a <= StretchFactor(a, u) < a
    ensures StretchFactor(a, u) > 0.0
  {
    var t := (a - 1.0) * u + 1.0;
    StretchBaseBounds(a, u);
    SquareBounds(t, a);
    DivBounds(t * t, a);
  }

  /** For `a > 1` the stretch grows strictly with the draw, so together with
      its bounds it maps [0, 1) one to one into [1/a, a). */
  lemma StretchFactorMonotone(a: real, u1: real, u2: real)
    requires a > 1.0 && 0.0 <= u1 < u2
    ensures StretchFactor(a, u1) < StretchFactor(a, u2)
  {
    StretchFactorOfBase(a, u1);
    StretchFactorOfBase(a, u2);
    BaseGrows(a, u1, u2);
    SquareOverGrows((a - 1.0) * u1 + 1.0, (a - 1.0) * u2 + 1.0, a);
  }

  /** Every value `t^2 / a` with `t` in [1, a) is the stretch of the draw
      `(t - 1) / (a - 1)` in [0, 1).  Since every `y` in [1/a, a) is
      `t^2 / a` for `t` the square root of `a y`, which lies in [1, a), the
      stretch maps [0, 1) onto [1/a, a). */
  lemma StretchFactorPreimage(a: real, t: real)
    requires a > 1.0 && 1.0 <= t < a
    ensures 0.0 <= (t - 1.0) / (a - 1.0) < 1.0
    ensures StretchFactor(a, (t - 1.0) / (a - 1.0)) == t * t / a
  {
    var u := (t - 1.0) / (a - 1.0);
    DivGrows(t - 1.0, a - 1.0, a - 1.0);
    assert (a - 1.0) / (a - 1.0) == 1.0;
    assert (a - 1.0) * u == t - 1.0;
  }

  /** The base `(a - 1) u + 1` grows strictly with the draw from 1 up. */
  lemma BaseGrows(a: real, u1: real, u2: real)
    requires a > 1.0 && 0.0 <= u1 < u2
    ensures 1.0 <= (a - 1.0) * u1 + 1.0 < (a - 1.0) * u2 + 1.0
  {
    MulNonNegative(a - 1.0, u1);
    MulPositive(a - 1.0, u2 - u1);
    Distribute(a - 1.0, u2 - u1, u1);
  }

  /** `x^2 / a` is strictly increasing on [1, oo) for `a > 0`. */
  lemma SquareOverGrows(x: real, y: real, a: real)
    requires 1.0 <= x < y && a > 0.0
    ensures x * x / a < y * y / a
  {
    SquareGrows(x, y);
    DivGrows(x * x, y * y, a);
  }

  /** The stretch as the square of its base over the scale. */
  lemma StretchFactorOfBase(a: real, u: real)
    requires a != 0.0
    ensures StretchFactor(a, u) == ((a - 1.0) * u + 1.0) * ((a - 1.0) * u + 1.0) / a
  {
  }

  /** Squaring is strictly increasing on [1, oo). */
  lemma SquareGrows(x: real, y: real)
    requires 1.0 <= x < y
    ensures x * x < y * y
  {
    MulPositive(y - x, y + x);
  }

  /** Division by a positive number keeps a strict order. */
  lemma DivGrows(x: real, y: real, a: real)
    requires x < y && a > 0.0
    ensures x / a < y / a
  {
  }

  /** The base `(a - 1) u + 1` of the stretch lies in [1, a). */
  lemma StretchBaseBounds(a: real, u: real)
    requires a > 1.0 && 0.0 <= u < 1.0
    ensures 1.0 <= (a - 1.0) * u + 1.0 < a
  {
    var x := a - 1.0;
    var y := 1.0 - u;
    MulPositive(x, y);
    assert x * y == a - a * u - 1.0 + u;
    MulNonNegative(x, u);
    assert x * u == a * u - u;
  }

  /** `1 <= t < a` implies `1 <= t^2 < a^2`. */
  lemma SquareBounds(t: real, a: real)
    requires 1.0 <= t < a
    ensures 1.0 <= t * t < a * a
  {
    MulPositive(t, a - t);
    MulPositive(a, a - t);
    MulNonNegative(t, t - 1.0);
    assert t * (a - t) == t * a - t * t;
    assert a * (a - t) == a * a - a * t;
    assert t * (t - 1.0) == t * t - t;
  }

  /** `1 <= x < a^2` implies `1/a <= x/a < a`. */
  lemma DivBounds(x: real, a: real)
    requires a > 1.0 && 1.0 <= x < a * a
    ensures 1.0 / a <= x / a < a
  {
  }

  lemma MulPositive(x: real, y: real)
    requires x > 0.0 && y > 0.0
    ensures x * y > 0.0
  {
  }

  lemma MulNonNegative(x: real, y: real)
    requires x >= 0.0 && y >= 0.0
    ensures x * y >= 0.0
  {
  }

  /** The scale `a = 1` degenerates the stretch to the identity. */
  lemma StretchFactorUnit(u: real)
    ensures StretchFactor(1.0, u) == 1.0
  {
  }

  // ---------------------------------------------------------------------------
  // Proposal
  // ---------------------------------------------------------------------------

  /** The stretch proposal `xj + z (xi - xj)`: the point on the line through
      the walker `xi` and its partner `xj` at stretch `z` from the partner. */
  function Propose(xi: seq<real>, xj: seq<real>, z: real): (y: seq<real>)
    requires |xi| == |xj|
    ensures |y| == |xi|
    ensures z == 1.0 ==> y == xi
    ensures z == 0.0 ==> y == xj
  {
    seq(|xi|, d requires 0 <= d < |xi| => xj[d] + z * (xi[d] - xj[d]))
  }

  /** Inner product of two vectors of equal length. */
  function Dot(u: seq<real>, v: seq<real>): real
    requires |u| == |v|
  {
    if |u| == 0 then 0.0 else u[0] * v[0] + Dot(u[1..], v[1..])
  }

  /** The affine map `x |-> M x + b`, with `M` given by its rows. */
  function Affine(m: seq<seq<real>>, b: seq<real>, x: seq<real>): (y: seq<real>)
    requires |b| == |m|
    requires forall k :: 0 <= k < |m| ==> |m[k]| == |x|
    ensures |y| == |m|
  {
    seq(|m|, k requires 0 <= k < |m| => Dot(m[k], x) + b[k])
  }

  /** The inner product is affine along the proposal line. */
  lemma {:induction false} DotAlongLine(row: seq<real>, xi: seq<real>, xj: seq<real>, z: real)
    requires |row| == |xi| == |xj|
    ensures Dot(row, Propose(xi, xj, z)) == Dot(row, xj) + z * (Dot(row, xi) - Dot(row, xj))
  {
    if |row| > 0 {
      var y := Propose(xi, xj, z);
      ProposeTail(xi, xj, z);
      DotAlongLine(row[1..], xi[1..], xj[1..], z);
      var r0, a0, b0 := row[0], xi[0], xj[0];
      var da, db := Dot(row[1..], xi[1..]), Dot(row[1..], xj[1..]);
      assert y[0] == b0 + z * (a0 - b0);
      ScaledLinePoint(r0, a0, b0, z);
      Distribute(z, r0 * a0 - r0 * b0, da - db);
    }
  }

  /** The proposal splits coordinate by coordinate. */
  lemma ProposeTail(xi: seq<real>, xj: seq<real>, z: real)
    requires |xi| == |xj| > 0
    ensures Propose(xi, xj, z)[0] == xj[0] + z * (xi[0] - xj[0])
    ensures Propose(xi, xj, z)[1..] == Propose(xi[1..], xj[1..], z)
  {
    var y := Propose(xi, xj, z);
    assert forall d :: 0 <= d < |y| - 1 ==> y[1..][d] == Propose(xi[1..], xj[1..], z)[d];
  }

  /** `r (b + z (a - b)) = r b + z (r a - r b)`. */
  lemma ScaledLinePoint(r: real, a: real, b: real, z: real)
    ensures r * (b + z * (a - b)) == r * b + z * (r * a - r * b)
  {
  }

  lemma Distribute(z: real, p: real, q: real)
    ensures z * p + z * q == z * (p + q)
  {
  }

  /** Affine invariance of the stretch move: proposing between the images of
      two walkers under any affine map gives the image of the proposal. */
  lemma ProposalAffineInvariant(m: seq<seq<real>>, b: seq<real>, xi: seq<real>, xj: seq<real>, z: real)
    requires |xi| == |xj| && |b| == |m|
    requires forall k :: 0 <= k < |m| ==> |m[k]| == |xi|
    ensures Propose(Affine(m, b, xi), Affine(m, b, xj), z) == Affine(m, b, Propose(xi, xj, z))
  {
    var lhs := Propose(Affine(m, b, xi), Affine(m, b, xj), z);
    var rhs := Affine(m, b, Propose(xi, xj, z));
    forall k | 0 <= k < |m|
      ensures lhs[k] == rhs[k]
    {
      DotAlongLine(m[k], xi, xj, z);
    }
  }

  // ---------------------------------------------------------------------------
  // Fixed dimensions
  // ---------------------------------------------------------------------------

  /** A Python index into a vector of length `d`: negative indices count from
      the end; anything outside [-d, d) is an IndexError. */
  function NormIndex(k: int, d: nat): (r: Option<nat>)
    ensures r.Some? <==> -(d as int) <= k < d
    ensures r.Some? ==> r.value < d && r.value as int % d == k % d
  {
    if 0 <= k < d then Some(k)
    else if -(d as int) <= k < 0 then NegativeIndexMod(k, d); Some(k + d)
    else None
  }

  /** A negative index in [-d, 0) and the index `d` places on agree modulo `d`. */
  lemma NegativeIndexMod(k: int, d: nat)
    requires -(d as int) <= k < 0
    ensures 0 <= k + d < d && (k + d) % d == k % d
  {
    assert (k + d) % d == k + d;
    assert k % d == k + d;
  }

  /** Normalise every fixed index, failing if any of them is out of range. */
  function NormIndices(inds: seq<int>, d: nat): (r: Option<seq<nat>>)
    ensures r.Some? <==> forall k :: 0 <= k < |inds| ==> NormIndex(inds[k], d).Some?
    ensures r.Some? ==> |r.value| == |inds|
    ensures r.Some? ==> forall k :: 0 <= k < |inds| ==> r.value[k] == NormIndex(inds[k], d).value
  {
    if |inds| == 0 then Some([])
    else match (NormIndex(inds[0], d), NormIndices(inds[1..], d))
      case (Some(k), Some(rest)) => Some([k] + rest)
      case _ => None
  }

  /** `x` holds every pinned value whose index is not pinned again later.
      NumPy does not say which write wins for a repeated index in a fancy
      assignment; the model chooses the last one. */
  ghost predicate PinnedBy(x: seq<real>, inds: seq<nat>, vals: seq<real>)
    requires |inds| == |vals|
  {
    forall k :: 0 <= k < |inds| && inds[k] < |x| && inds[k] !in inds[k + 1..] ==> x[inds[k]] == vals[k]
  }

  /** `newposition[:, inds] = vals` for one walker: overwrite the fixed
      dimensions in order. */
  function Pin(y: seq<real>, inds: seq<nat>, vals: seq<real>): (p: seq<real>)
    requires |inds| == |vals|
    requires forall k :: 0 <= k < |inds| ==> inds[k] < |y|
    ensures |p| == |y|
    ensures forall d :: 0 <= d < |y| && d !in inds ==> p[d] == y[d]
    ensures PinnedBy(p, inds, vals)
    decreases |inds|
  {
    if |inds| == 0 then y
    else
      var p := Pin(y[inds[0] := vals[0]], inds[1..], vals[1..]);
      assert forall k :: 1 <= k < |inds| ==> inds[k] == inds[1..][k - 1] && inds[k + 1..] == inds[1..][k..];
      p
  }

  /** Pinning a vector that already holds its pinned values changes nothing:
      fixed dimensions never move. */
  lemma {:induction false} PinFixpoint(x: seq<real>, inds: seq<nat>, vals: seq<real>)
    requires |inds| == |vals|
    requires forall k :: 0 <= k < |inds| ==> inds[k] < |x|
    requires PinnedBy(x, inds, vals)
    ensures Pin(x, inds, vals) == x
  {
    var p := Pin(x, inds, vals);
    forall d | 0 <= d < |x|
      ensures p[d] == x[d]
    {
      if d in inds {
        var k := LastIndexOf(inds, d);
        assert p[inds[k]] == vals[k];
      }
    }
  }

  /** The last position of `v` in `s`. */
  function LastIndexOf(s: seq<nat>, v: nat): (k: nat)
    requires v in s
    ensures k < |s| && s[k] == v && v !in s[k + 1..]
  {
    if s[|s| - 1] == v then |s| - 1
    else
      assert v in s[..|s| - 1] by { assert s == s[..|s| - 1] + [s[|s| - 1]]; }
      var k := LastIndexOf(s[..|s| - 1], v);
      assert s[k + 1..] == s[..|s| - 1][k + 1..] + [s[|s| - 1]];
      k
  }
}
