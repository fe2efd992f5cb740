/** The potential engine's bookkeeping: the tables its constructor sets up
    (i^l per channel, the relativity buffers, the auxiliary field scaling,
    the per-atom D-matrix blocks), the geometry tables update() recomputes
    (moments of spherical Bessel functions, Gamma-factor normalisation by a
    split running product) and the per-pass state generate() leaves behind
    (the potential difference and the decayed auxiliary field). The solvers
    that produce the potential itself (Poisson, XC, symmetrisation, FFT) are
    not interpreted: generate() receives the coefficients they leave. */
module Potential {
  import opened Common

  /** Treatment of relativity for the valence states. */
  datatype Relativity = NoRelativity | KoellingHarmon | Zora | Iora | Dirac

  /** What the engine asks of one exchange-correlation functional. */
  datatype XcFunctional = XcFunctional(isGga: bool, isVdw: bool)

  /** The part of the simulation context and unit cell that the engine reads:
        gvecCount        -- local G-vectors of the full G-vector set
        gvecFftCount     -- local G-vectors of the FFT distribution, the
                            length of a smooth function's local coefficients
        gvecLength[ig]   -- |G| of the ig-th local G-vector (gvecCount of them)
        mtRadius[iat]    -- muffin-tin radius of atom type iat
        mtBasisSize[ia]  -- muffin-tin basis size of atom ia */
  datatype Context = Context(
    initialized: bool,
    fullPotential: bool,
    lmaxRho: int,
    lmaxPot: int,
    unitCellLmax: int,
    shtLmax: int,
    numSpins: nat,
    numMagDims: nat,
    xcFunctionals: seq<XcFunctional>,
    valenceRelativity: Relativity,
    numGvec: nat,
    gvecCount: nat,
    gvecFftCount: nat,
    gvecLength: seq<real>,
    commRank: nat,
    mtRadius: seq<real>,
    mtBasisSize: seq<nat>,
    reduceAuxBf: real)

  /** The G = 0 vector is the first local vector of rank 0; every other local
      vector has a nonzero length. */
  predicate IsZeroG(ctx: Context, ig: nat) {
    ctx.commRank == 0 && ig == 0
  }

  /** What the engine takes for granted about the context: one length per
      local G-vector, positive sphere radii, and in full-potential mode
      lmax_rho >= -1 (the tables have lmax_rho + 1 rows) and, on rank 0 with
      at least one atom type, an l = 0 row and the G = 0 vector, the entry
      update() writes before its G-loop. */
  predicate WellFormed(ctx: Context) {
    && |ctx.gvecLength| == ctx.gvecCount
    && (forall iat :: 0 <= iat < |ctx.mtRadius| ==> ctx.mtRadius[iat] > 0.0)
    && (forall ig :: 0 <= ig < ctx.gvecCount && !IsZeroG(ctx, ig) ==> ctx.gvecLength[ig] != 0.0)
    && (ctx.fullPotential ==>
          && ctx.lmaxRho >= -1
          && (ctx.commRank == 0 && |ctx.mtRadius| > 0 ==> ctx.lmaxRho >= 0 && ctx.gvecCount >= 1))
  }

  // ---------------------------------------------------------------------
  // Angular cut-off and the i^l tables
  // ---------------------------------------------------------------------

  /** The angular cut-off of the engine: the larger of the density and
      potential cut-offs in full-potential mode, twice the unit cell's lmax
      otherwise, in either case raised to at least the SHT cut-off. It is
      the least value that bounds every candidate. */
  function ChooseLmax(ctx: Context): (lmax: int)
    ensures lmax >= ctx.shtLmax
    ensures ctx.fullPotential ==> lmax >= ctx.lmaxRho && lmax >= ctx.lmaxPot
    ensures !ctx.fullPotential ==> lmax >= 2 * ctx.unitCellLmax
    ensures || lmax == ctx.shtLmax
            || (ctx.fullPotential && (lmax == ctx.lmaxRho || lmax == ctx.lmaxPot))
            || (!ctx.fullPotential && lmax == 2 * ctx.unitCellLmax)
  {
    var base := if ctx.fullPotential then Max(ctx.lmaxRho, ctx.lmaxPot) else 2 * ctx.unitCellLmax;
    Max(base, ctx.shtLmax)
  }

  /** zil[l] = i^l for l = 0 .. lmax (IPowIsPower: the cycle is the power
      of i); empty when lmax < 0. */
  method BuildZil(lmax: int) returns (zil: array<Complex>)
    ensures fresh(zil)
    ensures zil.Length == if lmax >= 0 then lmax + 1 else 0
    ensures forall l :: 0 <= l < zil.Length ==> zil[l] == IPow(l)
  {
    zil := new Complex[if lmax >= 0 then lmax + 1 else 0];
    var l := 0;
    while l < zil.Length
      invariant 0 <= l <= zil.Length
      invariant forall k :: 0 <= k < l ==> zil[k] == IPow(k)
    {
      zil[l] := IPow(l);
      l := l + 1;
    }
  }

  /** zilm[lm] = zil[l] for every m of every l: the nested l / m loop with a
      running lm counter visits exactly the lm that l owns. */
  method BuildZilm(lmax: int, zil: array<Complex>) returns (zilm: array<Complex>)
    requires lmax >= 0 && zil.Length == lmax + 1
    ensures fresh(zilm)
    ensures zilm.Length == Lmmax(lmax)
    ensures forall lm :: 0 <= lm < zilm.Length ==> LOf(lm) <= lmax && zilm[lm] == zil[LOf(lm)]
  {
    zilm := new Complex[Lmmax(lmax)];
    var l, lm := 0, 0;
    while l <= lmax
      invariant 0 <= l <= lmax + 1
      invariant lm == Lmmax(l - 1) && lm <= zilm.Length
      invariant forall k :: 0 <= k < lm ==> LOf(k) < l && zilm[k] == zil[LOf(k)]
    {
      LmmaxMonotone(l, lmax);
      FillChannels(zilm, l, lm, zil[l]);
      forall k | lm <= k < Lmmax(l)
        ensures LOf(k) == l
      {
        LOfInBlock(k, l);
      }
      lm := Lmmax(l);
      l := l + 1;
    }
  }

  /** The inner m loop: the 2l + 1 channels of l, from start on, get v. */
  method FillChannels(zilm: array<Complex>, l: nat, start: nat, v: Complex)
    requires start + 2 * l + 1 <= zilm.Length
    modifies zilm
    ensures forall k :: 0 <= k < zilm.Length ==>
      zilm[k] == if start <= k < start + 2 * l + 1 then v else old(zilm[k])
  {
    var m: int := -(l as int);
    while m <= l
      invariant -(l as int) <= m <= l + 1
      invariant forall k :: 0 <= k < zilm.Length ==>
        zilm[k] == if start <= k < start + (m + l) then v else old(zilm[k])
    {
      zilm[start + (m + l)] := v;
      m := m + 1;
    }
  }

  // ---------------------------------------------------------------------
  // Relativity buffers, auxiliary field scaling, D-matrix blocks
  // ---------------------------------------------------------------------

  /** Which plane-wave buffers a relativity mode needs: the switch falls
      through, so IORA takes all three, ZORA the last two and every other
      mode only the effective potential's. */
  predicate NeedsRm2Inv(rel: Relativity) { rel == Iora }

  predicate NeedsRmInv(rel: Relativity) { rel == Iora || rel == Zora }

  /** The case label of the relativity switch that a mode enters at:
      0 for `iora`, 1 for `zora`, 2 for `default`. Without a `break`, the
      switch runs every case from that label on, and case i allocates
      buffer i (rm2_inv, rm_inv, veff). */
  function SwitchEntry(rel: Relativity): nat {
    match rel
    case Iora => 0
    case Zora => 1
    case _ => 2
  }

  /** The fall-through: a buffer is needed exactly when the switch enters
      at or before its case, so each buffer needed implies the next one is. */
  lemma RelativityBuffersNest(rel: Relativity)
    ensures NeedsRm2Inv(rel) <==> SwitchEntry(rel) <= 0
    ensures NeedsRmInv(rel) <==> SwitchEntry(rel) <= 1
    ensures NeedsRm2Inv(rel) ==> NeedsRmInv(rel)
  {
  }

  method AllocateRelativityBuffers(rel: Relativity, n: nat)
    returns (rm2Inv: Option<array<Complex>>, rmInv: Option<array<Complex>>, veff: Option<array<Complex>>)
    ensures rm2Inv.Some? <==> NeedsRm2Inv(rel)
    ensures rmInv.Some? <==> NeedsRmInv(rel)
    ensures veff.Some?
    ensures rm2Inv.Some? ==> fresh(rm2Inv.value) && rm2Inv.value.Length == n
    ensures rmInv.Some? ==> fresh(rmInv.value) && rmInv.value.Length == n
    ensures fresh(veff.value) && veff.value.Length == n
  {
    rm2Inv, rmInv := None, None;
    if rel == Iora {
      var a := new Complex[n];
      rm2Inv := Some(a);
    }
    if rel == Iora || rel == Zora {
      var a := new Complex[n];
      rmInv := Some(a);
    }
    var a := new Complex[n];
    veff := Some(a);
  }

  /** The value of every aux_bf entry after k passes of generate(): the
      entries start at 1 and decay geometrically when the reduction factor
      lies strictly between 0 and 1, and are 0 for good otherwise. */
  function AuxBfAfter(f: real, k: nat): real {
    if 0.0 < f < 1.0 then RPow(f, k) else 0.0
  }

  /** With a reduction factor in (0, 1) the auxiliary field shrinks
      strictly with every pass and stays positive. */
  lemma AuxBfDecays(f: real, k: nat)
    requires 0.0 < f < 1.0
    ensures 0.0 < AuxBfAfter(f, k + 1) < AuxBfAfter(f, k) <= 1.0
    ensures AuxBfAfter(f, k + 1) == AuxBfAfter(f, k) * f
  {
    RPowDecays(f, k);
  }

  method InitialAuxBf(numAtoms: nat, f: real) returns (aux: array2<real>)
    ensures fresh(aux)
    ensures aux.Length0 == 3 && aux.Length1 == numAtoms
    ensures forall x, ia :: 0 <= x < 3 && 0 <= ia < numAtoms ==> aux[x, ia] == AuxBfAfter(f, 0)
  {
    aux := new real[3, numAtoms];
    forall x, ia | 0 <= x < 3 && 0 <= ia < numAtoms {
      aux[x, ia] := 0.0;
    }
    if 0.0 < f < 1.0 {
      var ia := 0;
      while ia < numAtoms
        invariant 0 <= ia <= numAtoms
        invariant forall x, a :: 0 <= x < 3 && 0 <= a < numAtoms ==> aux[x, a] == (if a < ia then 1.0 else 0.0)
      {
        aux[0, ia] := 1.0;
        aux[1, ia] := 1.0;
        aux[2, ia] := 1.0;
        ia := ia + 1;
      }
    }
  }

  /** Multiplies every entry of the 3 x num_atoms table by f. */
  method ScaleAuxBf(aux: array2<real>, f: real)
    requires aux.Length0 == 3
    modifies aux
    ensures forall x, ia :: 0 <= x < 3 && 0 <= ia < aux.Length1 ==> aux[x, ia] == old(aux[x, ia]) * f
  {
    var ia := 0;
    while ia < aux.Length1
      invariant 0 <= ia <= aux.Length1
      invariant forall x, a :: 0 <= x < 3 && 0 <= a < aux.Length1 ==>
        aux[x, a] == (if a < ia then old(aux[x, a]) * f else old(aux[x, a]))
    {
      ScaleColumn(aux, ia, f);
      ia := ia + 1;
    }
  }

  /** The x loop of one atom: the three entries of column ia are
      multiplied by f, every other entry is kept. */
  method ScaleColumn(aux: array2<real>, ia: nat, f: real)
    requires aux.Length0 == 3 && ia < aux.Length1
    modifies aux
    ensures forall x, a :: 0 <= x < 3 && 0 <= a < aux.Length1 ==>
      aux[x, a] == (if a == ia then old(aux[x, a]) * f else old(aux[x, a]))
  {
    aux[0, ia] := aux[0, ia] * f;
    aux[1, ia] := aux[1, ia] * f;
    aux[2, ia] := aux[2, ia] * f;
  }

  predicate IsZeroBlock(d: array3<real>)
    reads d
  {
    forall i, j, s :: 0 <= i < d.Length0 && 0 <= j < d.Length1 && 0 <= s < d.Length2 ==> d[i, j, s] == 0.0
  }

  method ZeroedBlock(nbf: nat, numComponents: nat) returns (d: array3<real>)
    ensures fresh(d)
    ensures d.Length0 == nbf && d.Length1 == nbf && d.Length2 == numComponents
    ensures IsZeroBlock(d)
  {
    d := new real[nbf, nbf, numComponents];
    forall i, j, s | 0 <= i < nbf && 0 <= j < nbf && 0 <= s < numComponents {
      d[i, j, s] := 0.0;
    }
  }

  /** One zeroed nbf x nbf x (num_mag_dims + 1) block per atom, nbf being
      that atom's muffin-tin basis size. */
  method ZeroedDMatrices(basisSize: seq<nat>, numMagDims: nat) returns (d: seq<array3<real>>)
    ensures |d| == |basisSize|
    ensures forall ia :: 0 <= ia < |d| ==> fresh(d[ia])
    ensures forall ia :: 0 <= ia < |d| ==>
      d[ia].Length0 == basisSize[ia] && d[ia].Length1 == basisSize[ia] && d[ia].Length2 == numMagDims + 1
    ensures forall ia :: 0 <= ia < |d| ==> IsZeroBlock(d[ia])
  {
    d := [];
    var ia := 0;
    while ia < |basisSize|
      invariant 0 <= ia <= |basisSize| && |d| == ia
      invariant forall a :: 0 <= a < ia ==> fresh(d[a])
      invariant forall a :: 0 <= a < ia ==>
        d[a].Length0 == basisSize[a] && d[a].Length1 == basisSize[a] && d[a].Length2 == numMagDims + 1
      invariant forall a :: 0 <= a < ia ==> IsZeroBlock(d[a])
    {
      var block := ZeroedBlock(basisSize[ia], numMagDims + 1);
      d := d + [block];
      ia := ia + 1;
    }
  }

  // ---------------------------------------------------------------------
  // Moments of spherical Bessel functions (update, full-potential mode)
  // ---------------------------------------------------------------------

  /** The moment table before the G-loop: zero, except R^3 / 3 for l = 0 at
      G = 0, the G -> 0 limit of the l = 0 moment. */
  function ZeroGMoment(ctx: Context, l: nat, ig: nat, iat: nat): real
    requires iat < |ctx.mtRadius|
  {
    if IsZeroG(ctx, ig) && l == 0 then RPow(ctx.mtRadius[iat], 3) / 3.0 else 0.0
  }

  /** Moment of j_l(|G| r) r^(l+2) over [0, R], from the Bessel table value
      sbesselMt(l + 1, ig, iat) as R^(l+2) j_(l+1)(|G| R) / |G|. */
  function KernelMoment(ctx: Context, sbesselMt: (nat, nat, nat) -> real, l: nat, ig: nat, iat: nat): real
    requires WellFormed(ctx) && ig < ctx.gvecCount && iat < |ctx.mtRadius| && !IsZeroG(ctx, ig)
  {
    RPow(ctx.mtRadius[iat], l + 2) * sbesselMt(l + 1, ig, iat) / ctx.gvecLength[ig]
  }

  /** Entry (l, ig, iat) of sbessel_mom after update(). */
  function SbesselMoment(ctx: Context, sbesselMt: (nat, nat, nat) -> real, l: nat, ig: nat, iat: nat): real
    requires WellFormed(ctx) && ig < ctx.gvecCount && iat < |ctx.mtRadius|
  {
    if IsZeroG(ctx, ig) then ZeroGMoment(ctx, l, ig, iat) else KernelMoment(ctx, sbesselMt, l, ig, iat)
  }

  /** At G = 0 on rank 0 only the l = 0 moment is set, to R^3 / 3; every
      other G-vector, on every rank, gets the Bessel-function moment. */
  lemma ZeroWavevectorMoments(ctx: Context, sbesselMt: (nat, nat, nat) -> real, l: nat, ig: nat, iat: nat)
    requires WellFormed(ctx) && ig < ctx.gvecCount && iat < |ctx.mtRadius|
    ensures ctx.commRank == 0 && ig == 0 ==>
      SbesselMoment(ctx, sbesselMt, l, ig, iat) == (if l == 0 then RPow(ctx.mtRadius[iat], 3) / 3.0 else 0.0)
    ensures ctx.commRank != 0 || ig > 0 ==>
      SbesselMoment(ctx, sbesselMt, l, ig, iat)
        == RPow(ctx.mtRadius[iat], l + 2) * sbesselMt(l + 1, ig, iat) / ctx.gvecLength[ig]
  {
  }

  /** Fills the l-column of one G-vector and atom type. */
  method FillMomentColumn(mom: array3<real>, ctx: Context, sbesselMt: (nat, nat, nat) -> real, ig: nat, iat: nat)
    requires WellFormed(ctx) && ig < ctx.gvecCount && iat < |ctx.mtRadius| && !IsZeroG(ctx, ig)
    requires ctx.lmaxRho >= -1 && mom.Length0 == ctx.lmaxRho + 1
    requires ig < mom.Length1 && iat < mom.Length2
    modifies mom
    ensures forall l, g, t :: 0 <= l < mom.Length0 && 0 <= g < mom.Length1 && 0 <= t < mom.Length2 ==>
      mom[l, g, t] == if g == ig && t == iat then KernelMoment(ctx, sbesselMt, l, g, t) else old(mom[l, g, t])
  {
    var l := 0;
    while l <= ctx.lmaxRho
      invariant 0 <= l <= ctx.lmaxRho + 1
      invariant forall a, g, t :: 0 <= a < mom.Length0 && 0 <= g < mom.Length1 && 0 <= t < mom.Length2 ==>
        mom[a, g, t] == if g == ig && t == iat && a < l then KernelMoment(ctx, sbesselMt, a, g, t) else old(mom[a, g, t])
    {
      mom[l, ig, iat] := RPow(ctx.mtRadius[iat], l + 2) * sbesselMt(l + 1, ig, iat) / ctx.gvecLength[ig];
      l := l + 1;
    }
  }

  /** The G-loop of one atom type, from ig0 on. */
  method FillMomentsOfType(mom: array3<real>, ctx: Context, sbesselMt: (nat, nat, nat) -> real, ig0: nat, iat: nat)
    requires WellFormed(ctx) && iat < |ctx.mtRadius| && ig0 == (if ctx.commRank == 0 then 1 else 0)
    requires ctx.lmaxRho >= -1 && mom.Length0 == ctx.lmaxRho + 1
    requires mom.Length1 == ctx.gvecCount && iat < mom.Length2
    modifies mom
    ensures forall l, g, t :: 0 <= l < mom.Length0 && 0 <= g < mom.Length1 && 0 <= t < mom.Length2 ==>
      mom[l, g, t] == if g >= ig0 && t == iat then KernelMoment(ctx, sbesselMt, l, g, t) else old(mom[l, g, t])
  {
    var ig := ig0;
    while ig < ctx.gvecCount
      invariant ig0 <= ig <= ctx.gvecCount || (ig == ig0 && ctx.gvecCount < ig0)
      invariant forall l, g, t :: 0 <= l < mom.Length0 && 0 <= g < mom.Length1 && 0 <= t < mom.Length2 ==>
        mom[l, g, t] == if ig0 <= g < ig && t == iat then KernelMoment(ctx, sbesselMt, l, g, t) else old(mom[l, g, t])
    {
      FillMomentColumn(mom, ctx, sbesselMt, ig, iat);
      ig := ig + 1;
    }
  }

  method BuildSbesselMom(ctx: Context, sbesselMt: (nat, nat, nat) -> real) returns (mom: array3<real>)
    requires WellFormed(ctx) && ctx.fullPotential
    ensures fresh(mom)
    ensures mom.Length0 == ctx.lmaxRho + 1 && mom.Length1 == ctx.gvecCount && mom.Length2 == |ctx.mtRadius|
    ensures forall l, ig, iat :: 0 <= l < mom.Length0 && 0 <= ig < mom.Length1 && 0 <= iat < mom.Length2 ==>
      mom[l, ig, iat] == SbesselMoment(ctx, sbesselMt, l, ig, iat)
  {
    var numTypes := |ctx.mtRadius|;
    mom := new real[ctx.lmaxRho + 1, ctx.gvecCount, numTypes];
    forall l, ig, iat | 0 <= l < mom.Length0 && 0 <= ig < mom.Length1 && 0 <= iat < mom.Length2 {
      mom[l, ig, iat] := 0.0;
    }
    var ig0 := 0;
    if ctx.commRank == 0 {
      var iat := 0;
      while iat < numTypes
        invariant 0 <= iat <= numTypes
        invariant forall l, g, t :: 0 <= l < mom.Length0 && 0 <= g < mom.Length1 && 0 <= t < mom.Length2 ==>
          mom[l, g, t] == if t < iat then ZeroGMoment(ctx, l, g, t) else 0.0
      {
        mom[0, 0, iat] := RPow(ctx.mtRadius[iat], 3) / 3.0;
        iat := iat + 1;
      }
      ig0 := 1;
    }
    var iat := 0;
    while iat < numTypes
      invariant 0 <= iat <= numTypes
      invariant forall l, g, t :: 0 <= l < mom.Length0 && 0 <= g < mom.Length1 && 0 <= t < mom.Length2 ==>
        mom[l, g, t] == if t < iat then SbesselMoment(ctx, sbesselMt, l, g, t) else ZeroGMoment(ctx, l, g, t)
    {
      FillMomentsOfType(mom, ctx, sbesselMt, ig0, iat);
      iat := iat + 1;
    }
  }

  // ---------------------------------------------------------------------
  // Gamma factors: Gamma(5/2 + n + l) / Gamma(3/2 + l) / R^l
  // ---------------------------------------------------------------------

  /** Product of the count factors n / 2 for n = nMin, nMin + 2, ... */
  function HalfProduct(nMin: nat, count: nat): real {
    if count == 0 then 1.0 else HalfProduct(nMin, count - 1) * ((nMin + 2 * (count - 1)) as real / 2.0)
  }

  /** Gamma(5/2 + n + l) / Gamma(3/2 + l) through the recurrence
      Gamma(x + 1) = x Gamma(x): the rising product (l + 3/2)(l + 5/2) ...
      (l + 3/2 + n). */
  function GammaRatio(l: nat, n: nat): real {
    if n == 0 then l as real + 1.5 else GammaRatio(l, n - 1) * (l as real + 1.5 + n as real)
  }

  /** The factors n / 2, n = 2l + 3 .. 2l + 3 + 2p, are the rising product
      of Gamma(5/2 + p + l) / Gamma(3/2 + l). */
  lemma {:induction false} HalfProductIsGammaRatio(l: nat, p: nat)
    ensures HalfProduct(2 * l + 3, p + 1) == GammaRatio(l, p)
  {
    if p > 0 {
      HalfProductIsGammaRatio(l, p - 1);
    }
  }

  lemma {:induction false} HalfProductAtLeastOne(nMin: nat, count: nat)
    requires nMin >= 2
    ensures HalfProduct(nMin, count) >= 1.0
  {
    if count > 0 {
      HalfProductAtLeastOne(nMin, count - 1);
      var h := (nMin + 2 * (count - 1)) as real / 2.0;
      MulAtLeastOne(HalfProduct(nMin, count - 1), h);
    }
  }

  lemma MulAtLeastOne(a: real, b: real)
    requires a >= 1.0 && b >= 1.0
    ensures a * b >= 1.0
  {
    assert a * b >= a * 1.0;
  }

  /** Entry (l, iat) of gamma_factors_R for a sphere of radius r. */
  function GammaFactor(r: real, l: nat, p: nat): real
    requires r > 0.0
  {
    RPowPositive(r, l);
    HalfProduct(2 * l + 3, p + 1) / RPow(r, l)
  }

  /** The product of the p + 1 factors n / 2, n = 2l + 3, 2l + 5, ...,
      2l + 3 + 2p, split in two running products: a factor goes to f1 while
      f1 is below rl = R^l, and to f2 afterwards. Both stay at least 1,
      their product is the full product, and g = (f1 / rl) * f2 is that
      product over R^l. */
  method SplitGammaProduct(rl: real, l: nat, p: nat) returns (f1: real, f2: real, g: real)
    requires rl > 0.0
    ensures f1 >= 1.0 && f2 >= 1.0
    ensures f1 * f2 == HalfProduct(2 * l + 3, p + 1)
    ensures g == HalfProduct(2 * l + 3, p + 1) / rl
  {
    var nMin: nat := 2 * l + 3;
    var nMax := (2 * l + 1) + (2 * p + 2);
    f1, f2 := 1.0, 1.0;
    var n := nMin;
    ghost var count: nat := 0;
    ghost var prod := 1.0;
    while n <= nMax
      invariant n == nMin + 2 * count && count <= p + 1
      invariant prod == HalfProduct(nMin, count)
      invariant f1 * f2 == prod
      invariant f1 >= 1.0 && f2 >= 1.0
    {
      HalfProductStep(nMin, count, n);
      f1, f2 := SplitStep(f1, f2, n as real / 2.0, rl, prod);
      prod := prod * (n as real / 2.0);
      n := n + 2;
      count := count + 1;
    }
    assert count == p + 1;
    g := CombineSplit(f1, f2, rl, prod);
  }

  lemma HalfProductStep(nMin: nat, count: nat, n: nat)
    requires n == nMin + 2 * count
    ensures HalfProduct(nMin, count + 1) == HalfProduct(nMin, count) * (n as real / 2.0)
  {
  }

  /** One factor h of the split product: it goes to f1 while f1 < rl, to f2
      otherwise; the pair keeps its product and its lower bound. */
  method SplitStep(f1: real, f2: real, h: real, rl: real, ghost prod: real) returns (g1: real, g2: real)
    requires f1 >= 1.0 && f2 >= 1.0 && h >= 1.0 && f1 * f2 == prod
    ensures g1 >= 1.0 && g2 >= 1.0 && g1 * g2 == prod * h
    ensures f1 < rl ==> g1 == f1 * h && g2 == f2
    ensures !(f1 < rl) ==> g1 == f1 && g2 == f2 * h
  {
    if f1 < rl {
      MulAtLeastOne(f1, h);
      g1, g2 := f1 * h, f2;
    } else {
      MulAtLeastOne(f2, h);
      g1, g2 := f1, f2 * h;
    }
  }

  /** (f1 / rl) * f2, the order in which the two halves are combined, is
      the whole product over rl. */
  method CombineSplit(f1: real, f2: real, rl: real, ghost prod: real) returns (g: real)
    requires rl > 0.0 && f1 * f2 == prod
    ensures g == prod / rl
  {
    g := (f1 / rl) * f2;
    DivThenMul(f1, f2, rl);
  }

  lemma DivThenMul(a: real, b: real, r: real)
    requires r != 0.0
    ensures (a / r) * b == (a * b) / r
  {
  }

  method BuildGammaFactors(radius: seq<real>, lmaxRho: int, p: nat) returns (gamma: array2<real>)
    requires lmaxRho >= -1
    requires forall iat :: 0 <= iat < |radius| ==> radius[iat] > 0.0
    ensures fresh(gamma)
    ensures gamma.Length0 == lmaxRho + 1 && gamma.Length1 == |radius|
    ensures forall l, iat :: 0 <= l < gamma.Length0 && 0 <= iat < gamma.Length1 ==>
      gamma[l, iat] == GammaFactor(radius[iat], l, p)
  {
    gamma := new real[lmaxRho + 1, |radius|];
    var iat := 0;
    while iat < |radius|
      invariant 0 <= iat <= |radius|
      invariant forall a, t :: 0 <= a < gamma.Length0 && 0 <= t < iat ==> gamma[a, t] == GammaFactor(radius[t], a, p)
    {
      var l := 0;
      while l <= lmaxRho
        invariant 0 <= l <= lmaxRho + 1
        invariant forall a, t :: 0 <= a < gamma.Length0 && 0 <= t < iat ==> gamma[a, t] == GammaFactor(radius[t], a, p)
        invariant forall a :: 0 <= a < l ==> gamma[a, iat] == GammaFactor(radius[iat], a, p)
      {
        RPowPositive(radius[iat], l);
        var _, _, g := SplitGammaProduct(RPow(radius[iat], l), l, p);
        gamma[l, iat] := g;
        l := l + 1;
      }
      iat := iat + 1;
    }
  }

  // ---------------------------------------------------------------------
  // Gradient correction
  // ---------------------------------------------------------------------

  predicate HasGradientCorrection(xcs: seq<XcFunctional>) {
    exists i :: 0 <= i < |xcs| && (xcs[i].isGga || xcs[i].isVdw)
  }

  /** True exactly when some XC functional of the engine's list is a GGA or
      van der Waals one. */
  method IsGradientCorrection(xcFunc: seq<XcFunctional>) returns (isGga: bool)
    ensures isGga <==> HasGradientCorrection(xcFunc)
  {
    isGga := false;
    var i := 0;
    while i < |xcFunc|
      invariant 0 <= i <= |xcFunc|
      invariant isGga <==> exists k :: 0 <= k < i && (xcFunc[k].isGga || xcFunc[k].isVdw)
    {
      if xcFunc[i].isGga || xcFunc[i].isVdw {
        isGga := true;
      }
      i := i + 1;
    }
  }

  /** Number of vsigma buffers: one per spin-density combination (1 for one
      spin, 3 for two) when a gradient correction is present, none otherwise. */
  function NumVsigma(xcs: seq<XcFunctional>, numSpins: nat): (n: nat)
    ensures n <= 3
    ensures n == 0 <==> !HasGradientCorrection(xcs)
  {
    if !HasGradientCorrection(xcs) then 0 else if numSpins == 1 then 1 else 3
  }

  // ---------------------------------------------------------------------
  // The engine
  // ---------------------------------------------------------------------

  /** zil[l] = i^l and zilm[lm] = i^l for the owner l of lm. */
  predicate IPowFilled(zil: array<Complex>, zilm: array<Complex>)
    reads zil, zilm
  {
    && (forall l :: 0 <= l < zil.Length ==> zil[l] == IPow(l))
    && (forall lm :: 0 <= lm < zilm.Length ==> zilm[lm] == IPow(LOf(lm)))
  }

  /** Every coefficient of a is zero. */
  predicate AllZero(a: array<Complex>)
    reads a
  {
    forall ig :: 0 <= ig < a.Length ==> a[ig] == Zero
  }

  /** Each D-matrix block is zero and sized by its atom's basis size and
      the number of magnetic components plus one. */
  predicate ZeroedBlocks(dm: seq<array3<real>>, ctx: Context)
    reads set ia | 0 <= ia < |dm| :: dm[ia]
  {
    forall ia :: 0 <= ia < |dm| && ia < |ctx.mtBasisSize| ==>
      && dm[ia].Length0 == ctx.mtBasisSize[ia] && dm[ia].Length1 == ctx.mtBasisSize[ia]
      && dm[ia].Length2 == ctx.numMagDims + 1
      && IsZeroBlock(dm[ia])
  }

  /** The i^l and i^l-by-lm tables of the constructor; both empty when
      lmax < 0. */
  method BuildIPowTables(lmax: int) returns (zil: array<Complex>, zilm: array<Complex>)
    ensures fresh(zil) && fresh(zilm)
    ensures zil.Length == (if lmax >= 0 then lmax + 1 else 0)
    ensures zilm.Length == (if lmax >= 0 then Lmmax(lmax) else 0)
    ensures IPowFilled(zil, zilm)
  {
    zil := BuildZil(lmax);
    zilm := new Complex[0];
    if lmax >= 0 {
      zilm := BuildZilm(lmax, zil);
    }
  }

  /** The pseudopotential-mode buffers: a zeroed dveff of the local
      plane-wave count and one zeroed D-matrix block per atom. */
  method AllocatePseudoBuffers(ctx: Context) returns (dveff: array<Complex>, dm: seq<array3<real>>)
    ensures fresh(dveff) && dveff.Length == ctx.gvecFftCount && AllZero(dveff)
    ensures |dm| == |ctx.mtBasisSize|
    ensures forall ia :: 0 <= ia < |dm| ==> fresh(dm[ia])
    ensures ZeroedBlocks(dm, ctx)
  {
    dveff := new Complex[ctx.gvecFftCount](_ => Zero);
    dm := ZeroedDMatrices(ctx.mtBasisSize, ctx.numMagDims);
  }

  /** The buffers that depend on the mode: the relativity plane-wave
      buffers in full-potential mode, dveff and the D-matrix blocks
      otherwise. */
  method AllocateModeBuffers(ctx: Context)
    returns (dveff: Option<array<Complex>>, rm2InvPw: Option<array<Complex>>, rmInvPw: Option<array<Complex>>,
             veffPw: Option<array<Complex>>, dm: seq<array3<real>>)
    ensures dveff.Some? <==> !ctx.fullPotential
    ensures dveff.Some? ==> fresh(dveff.value) && dveff.value.Length == ctx.gvecFftCount && AllZero(dveff.value)
    ensures rm2InvPw.Some? <==> ctx.fullPotential && NeedsRm2Inv(ctx.valenceRelativity)
    ensures rmInvPw.Some? <==> ctx.fullPotential && NeedsRmInv(ctx.valenceRelativity)
    ensures veffPw.Some? <==> ctx.fullPotential
    ensures rm2InvPw.Some? ==> fresh(rm2InvPw.value) && rm2InvPw.value.Length == ctx.numGvec
    ensures rmInvPw.Some? ==> fresh(rmInvPw.value) && rmInvPw.value.Length == ctx.numGvec
    ensures veffPw.Some? ==> fresh(veffPw.value) && veffPw.value.Length == ctx.numGvec
    ensures |dm| == (if ctx.fullPotential then 0 else |ctx.mtBasisSize|)
    ensures forall ia :: 0 <= ia < |dm| ==> fresh(dm[ia])
    ensures ZeroedBlocks(dm, ctx)
  {
    dveff, rm2InvPw, rmInvPw, veffPw := None, None, None, None;
    dm := [];
    if ctx.fullPotential {
      rm2InvPw, rmInvPw, veffPw := AllocateRelativityBuffers(ctx.valenceRelativity, ctx.numGvec);
    } else {
      var d;
      d, dm := AllocatePseudoBuffers(ctx);
      dveff := Some(d);
    }
  }

  /** The tables a freshly built engine holds, in terms of its context. */
  predicate InitialTables(ctx: Context, lmax: int, lByLm: seq<nat>, zil: array<Complex>, zilm: array<Complex>,
                          xcFunc: seq<XcFunctional>, numVsigma: nat, dveff: Option<array<Complex>>, dMtrx: seq<array3<real>>)
    reads zil, zilm, if dveff.Some? then {dveff.value} else {}, set ia | 0 <= ia < |dMtrx| :: dMtrx[ia]
  {
    && lmax == ChooseLmax(ctx)
    && lByLm == (if lmax >= 0 then LByLm(lmax) else [])
    && IPowFilled(zil, zilm)
    && xcFunc == ctx.xcFunctionals
    && numVsigma == NumVsigma(ctx.xcFunctionals, ctx.numSpins)
    && (dveff.Some? ==> AllZero(dveff.value))
    && ZeroedBlocks(dMtrx, ctx)
  }

  /** The shapes the constructor gives the engine's tables and buffers:
      the i^l tables sized by lmax; dveff and the D-matrix blocks exactly in
      pseudopotential mode, dveff with one entry per local G-vector; the
      relativity buffers exactly in full-potential mode as the valence
      relativity needs them, each with num_gvec entries; aux_bf 3 by the
      number of atoms. */
  predicate TableShapes(ctx: Context, lmax: int, zil: array<Complex>, zilm: array<Complex>,
                        dveff: Option<array<Complex>>, rm2InvPw: Option<array<Complex>>,
                        rmInvPw: Option<array<Complex>>, veffPw: Option<array<Complex>>,
                        auxBf: array2<real>, dMtrx: seq<array3<real>>)
  {
    && zil.Length == (if lmax >= 0 then lmax + 1 else 0)
    && zilm.Length == (if lmax >= 0 then Lmmax(lmax) else 0)
    && (dveff.Some? <==> !ctx.fullPotential)
    && (dveff.Some? ==> dveff.value.Length == ctx.gvecFftCount)
    && (rm2InvPw.Some? <==> ctx.fullPotential && NeedsRm2Inv(ctx.valenceRelativity))
    && (rmInvPw.Some? <==> ctx.fullPotential && NeedsRmInv(ctx.valenceRelativity))
    && (veffPw.Some? <==> ctx.fullPotential)
    && (rm2InvPw.Some? ==> rm2InvPw.value.Length == ctx.numGvec)
    && (rmInvPw.Some? ==> rmInvPw.value.Length == ctx.numGvec)
    && (veffPw.Some? ==> veffPw.value.Length == ctx.numGvec)
    && auxBf.Length0 == 3 && auxBf.Length1 == |ctx.mtBasisSize|
    && |dMtrx| == (if ctx.fullPotential then 0 else |ctx.mtBasisSize|)
  }

  /** Everything the constructor computes before it stores it: lmax, the
      l_by_lm and i^l tables, the vsigma count and the freshly allocated
      buffers, with aux_bf at its starting value. */
  method AllocateTables(ctx: Context)
    returns (lmax: int, lByLm: seq<nat>, zil: array<Complex>, zilm: array<Complex>, numVsigma: nat,
             dveff: Option<array<Complex>>, rm2InvPw: Option<array<Complex>>, rmInvPw: Option<array<Complex>>,
             veffPw: Option<array<Complex>>, auxBf: array2<real>, dMtrx: seq<array3<real>>)
    requires WellFormed(ctx)
    ensures TableShapes(ctx, lmax, zil, zilm, dveff, rm2InvPw, rmInvPw, veffPw, auxBf, dMtrx)
    ensures InitialTables(ctx, lmax, lByLm, zil, zilm, ctx.xcFunctionals, numVsigma, dveff, dMtrx)
    ensures forall x, ia :: 0 <= x < 3 && 0 <= ia < auxBf.Length1 ==> auxBf[x, ia] == AuxBfAfter(ctx.reduceAuxBf, 0)
    ensures fresh(zil) && fresh(zilm) && fresh(auxBf)
    ensures dveff.Some? ==> fresh(dveff.value)
    ensures rm2InvPw.Some? ==> fresh(rm2InvPw.value)
    ensures rmInvPw.Some? ==> fresh(rmInvPw.value)
    ensures veffPw.Some? ==> fresh(veffPw.value)
    ensures forall ia :: 0 <= ia < |dMtrx| ==> fresh(dMtrx[ia])
  {
    lmax := ChooseLmax(ctx);
    zil, zilm := BuildIPowTables(lmax);
    dveff, rm2InvPw, rmInvPw, veffPw, dMtrx := AllocateModeBuffers(ctx);
    auxBf := InitialAuxBf(|ctx.mtBasisSize|, ctx.reduceAuxBf);
    var gradient := IsGradientCorrection(ctx.xcFunctionals);
    lByLm := if lmax >= 0 then LByLm(lmax) else [];
    numVsigma := if !gradient then 0 else if ctx.numSpins == 1 then 1 else 3;
  }

  class Potential {
    const ctx: Context
    const pseudoDensityOrder: nat
    const lmax: int
    var lByLm: seq<nat>
    var zil: array<Complex>
    var zilm: array<Complex>
    var xcFunc: seq<XcFunctional>
    var numVsigma: nat
    /** Local plane-wave coefficients of the effective potential (owned by
        the context's "veff" function). */
    var veffPwLocal: array<Complex>
    var dveff: Option<array<Complex>>
    var rm2InvPw: Option<array<Complex>>
    var rmInvPw: Option<array<Complex>>
    var veffPw: Option<array<Complex>>
    var auxBf: array2<real>
    var dMtrx: seq<array3<real>>
    var sbesselMom: array3<real>
    var gammaFactorsR: array2<real>
    /** Number of completed generate() passes. */
    ghost var numGenerated: nat

    /** Shapes and presence of the buffers, as the constructor leaves them
        and every later operation keeps them. */
    predicate Valid()
      reads this
    {
      && WellFormed(ctx)
      && veffPwLocal.Length == ctx.gvecFftCount
      && TableShapes(ctx, lmax, zil, zilm, dveff, rm2InvPw, rmInvPw, veffPw, auxBf, dMtrx)
      && (dveff.Some? ==> dveff.value != veffPwLocal)
    }

    /** Every aux_bf entry holds its value after numGenerated passes. */
    ghost predicate AuxBfTracksPasses()
      reads this, auxBf
    {
      forall x, ia :: 0 <= x < auxBf.Length0 && 0 <= ia < auxBf.Length1 ==>
        auxBf[x, ia] == AuxBfAfter(ctx.reduceAuxBf, numGenerated)
    }

    /** The geometry tables agree with the context (full-potential mode). */
    predicate TablesCurrent(sbesselMt: (nat, nat, nat) -> real)
      reads this, sbesselMom, gammaFactorsR
      requires WellFormed(ctx)
    {
      && sbesselMom.Length0 == ctx.lmaxRho + 1
      && sbesselMom.Length1 == ctx.gvecCount
      && sbesselMom.Length2 == |ctx.mtRadius|
      && (forall l, ig, iat :: 0 <= l < sbesselMom.Length0 && 0 <= ig < sbesselMom.Length1 && 0 <= iat < sbesselMom.Length2 ==>
            sbesselMom[l, ig, iat] == SbesselMoment(ctx, sbesselMt, l, ig, iat))
      && gammaFactorsR.Length0 == ctx.lmaxRho + 1
      && gammaFactorsR.Length1 == |ctx.mtRadius|
      && (forall l, iat :: 0 <= l < gammaFactorsR.Length0 && 0 <= iat < gammaFactorsR.Length1 ==>
            gammaFactorsR[l, iat] == GammaFactor(ctx.mtRadius[iat], l, pseudoDensityOrder))
    }

    /** What the constructor leaves in the tables Valid() only shapes: the
        chosen lmax, the l_by_lm and i^l tables, the XC list, the vsigma
        count, a zeroed dveff and zeroed D-matrix blocks of the atoms'
        basis sizes. update() and generate() never touch the lmax, l_by_lm,
        i^l, XC and vsigma parts. */
    predicate ConstructedTables()
      reads this, zil, zilm, DveffFrame(), set ia | 0 <= ia < |dMtrx| :: dMtrx[ia]
    {
      InitialTables(ctx, lmax, lByLm, zil, zilm, xcFunc, numVsigma, dveff, dMtrx)
    }

    ghost function DveffFrame(): set<object>
      reads this
    {
      if dveff.Some? then {dveff.value} else {}
    }

    /** The constructor without the final update(): picks lmax, fills the
        i^l tables, copies the XC list, sizes the vsigma, dveff, relativity,
        aux_bf and D-matrix buffers. */
    constructor (ctx: Context, veffPwLocal: array<Complex>, pseudoDensityOrder: nat)
      requires ctx.initialized && WellFormed(ctx)
      requires veffPwLocal.Length == ctx.gvecFftCount
      ensures this.ctx == ctx && this.veffPwLocal == veffPwLocal && this.pseudoDensityOrder == pseudoDensityOrder
      ensures Valid()
      ensures ConstructedTables()
      ensures fresh(zil) && fresh(zilm) && fresh(auxBf)
      ensures dveff.Some? ==> fresh(dveff.value)
      ensures rm2InvPw.Some? ==> fresh(rm2InvPw.value)
      ensures rmInvPw.Some? ==> fresh(rmInvPw.value)
      ensures veffPw.Some? ==> fresh(veffPw.value)
      ensures forall ia :: 0 <= ia < |dMtrx| ==> fresh(dMtrx[ia])
      ensures numGenerated == 0 && AuxBfTracksPasses()
    {
      var mom := new real[0, 0, 0];
      var gamma := new real[0, 0];
      var lmaxT, lByLmT, zilT, zilmT, vsigma, dveffT, rm2, rm, vpw, aux, dm := AllocateTables(ctx);
      this.ctx := ctx;
      this.pseudoDensityOrder := pseudoDensityOrder;
      this.veffPwLocal := veffPwLocal;
      lmax, lByLm := lmaxT, lByLmT;
      zil, zilm := zilT, zilmT;
      xcFunc := ctx.xcFunctionals;
      numVsigma := vsigma;
      dveff := dveffT;
      rm2InvPw, rmInvPw, veffPw := rm2, rm, vpw;
      auxBf := aux;
      dMtrx := dm;
      sbesselMom, gammaFactorsR := mom, gamma;
      numGenerated := 0;
    }

    /** Recomputes the geometry tables: in full-potential mode the Bessel
        moments and the Gamma factors; in pseudopotential mode the local
        ionic potential and the Ewald energy, which are not modelled. */
    method Update(sbesselMt: (nat, nat, nat) -> real)
      requires Valid()
      modifies this`sbesselMom, this`gammaFactorsR
      ensures Valid()
      ensures ctx.fullPotential ==> fresh(sbesselMom) && fresh(gammaFactorsR) && TablesCurrent(sbesselMt)
      ensures !ctx.fullPotential ==> sbesselMom == old(sbesselMom) && gammaFactorsR == old(gammaFactorsR)
    {
      if ctx.fullPotential {
        var mom := BuildSbesselMom(ctx, sbesselMt);
        var gamma := BuildGammaFactors(ctx.mtRadius, ctx.lmaxRho, pseudoDensityOrder);
        sbesselMom, gammaFactorsR := mom, gamma;
      }
    }

    /** One potential pass. newVeff stands for the plane-wave coefficients
        the solvers leave in the effective potential. In pseudopotential
        mode dveff becomes new minus previous coefficients, and the
        D-matrix blocks may be rewritten (by generate_d_mtrx(), whose
        values are not modelled); aux_bf is scaled by the reduction factor
        when it lies in (0, 1). */
    method Generate(newVeff: seq<Complex>)
      requires Valid() && AuxBfTracksPasses()
      requires |newVeff| == veffPwLocal.Length
      modifies veffPwLocal, auxBf, this`numGenerated, DveffFrame(), set ia | 0 <= ia < |dMtrx| :: dMtrx[ia]
      ensures Valid() && AuxBfTracksPasses()
      ensures numGenerated == old(numGenerated) + 1
      ensures veffPwLocal[..] == newVeff
      ensures dveff.Some? ==> forall ig :: 0 <= ig < |newVeff| ==>
        dveff.value[ig] == Sub(newVeff[ig], old(veffPwLocal[ig]))
      ensures forall x, ia :: 0 <= x < 3 && 0 <= ia < auxBf.Length1 ==>
        auxBf[x, ia] == if 0.0 < ctx.reduceAuxBf < 1.0 then old(auxBf[x, ia]) * ctx.reduceAuxBf else old(auxBf[x, ia])
    {
      if ctx.fullPotential {
        CopyIn(veffPwLocal, newVeff);
      } else {
        ReplaceAndDiff(veffPwLocal, dveff.value, newVeff);
      }
      DecayAuxBf(auxBf, ctx.reduceAuxBf, numGenerated);
      numGenerated := numGenerated + 1;
    }
  }

  /** The context check of the constructor: an uninitialised context is
      refused; otherwise the engine is built and update() run once. */
  method Create(ctx: Context, veffPwLocal: array<Complex>, pseudoDensityOrder: nat, sbesselMt: (nat, nat, nat) -> real)
    returns (r: Result<Potential, string>)
    requires WellFormed(ctx) && veffPwLocal.Length == ctx.gvecFftCount
    ensures r.Failure? <==> !ctx.initialized
    ensures r.Success? ==> fresh(r.value) && r.value.ctx == ctx && r.value.Valid() && r.value.AuxBfTracksPasses()
    ensures r.Success? ==> r.value.ConstructedTables() && r.value.numGenerated == 0
    ensures r.Success? ==> r.value.veffPwLocal == veffPwLocal && r.value.pseudoDensityOrder == pseudoDensityOrder
    ensures r.Success? ==> fresh(r.value.zil) && fresh(r.value.zilm) && fresh(r.value.auxBf)
    ensures r.Success? && r.value.dveff.Some? ==> fresh(r.value.dveff.value)
    ensures r.Success? && r.value.rm2InvPw.Some? ==> fresh(r.value.rm2InvPw.value)
    ensures r.Success? && r.value.rmInvPw.Some? ==> fresh(r.value.rmInvPw.value)
    ensures r.Success? && r.value.veffPw.Some? ==> fresh(r.value.veffPw.value)
    ensures r.Success? ==> forall ia :: 0 <= ia < |r.value.dMtrx| ==> fresh(r.value.dMtrx[ia])
    ensures r.Success? && ctx.fullPotential ==> r.value.TablesCurrent(sbesselMt)
  {
    if !ctx.initialized {
      return Failure("Simulation_context is not initialized");
    }
    var p := new Potential(ctx, veffPwLocal, pseudoDensityOrder);
    p.Update(sbesselMt);
    r := Success(p);
  }

  /** The pseudopotential-mode bracket around a pass: the current
      coefficients are saved in d, the new ones replace them in v, and d
      becomes new minus saved. */
  method ReplaceAndDiff(v: array<Complex>, d: array<Complex>, newVeff: seq<Complex>)
    requires v.Length == d.Length == |newVeff| && v != d
    modifies v, d
    ensures v[..] == newVeff
    ensures forall ig :: 0 <= ig < |newVeff| ==> d[ig] == Sub(newVeff[ig], old(v[ig]))
  {
    CopyCoefficients(v, d);
    CopyIn(v, newVeff);
    SubtractFrom(v, d);
  }

  /** The aux_bf step of a pass: with a factor in (0, 1) every entry is
      multiplied by it, otherwise nothing changes; an aux_bf that held its
      value after k passes holds its value after k + 1. */
  method DecayAuxBf(aux: array2<real>, f: real, ghost k: nat)
    requires aux.Length0 == 3
    requires forall x, ia :: 0 <= x < 3 && 0 <= ia < aux.Length1 ==> aux[x, ia] == AuxBfAfter(f, k)
    modifies aux
    ensures forall x, ia :: 0 <= x < 3 && 0 <= ia < aux.Length1 ==>
      aux[x, ia] == if 0.0 < f < 1.0 then old(aux[x, ia]) * f else old(aux[x, ia])
    ensures forall x, ia :: 0 <= x < 3 && 0 <= ia < aux.Length1 ==> aux[x, ia] == AuxBfAfter(f, k + 1)
  {
    if 0.0 < f < 1.0 {
      ScaleAuxBf(aux, f);
      AuxBfDecays(f, k);
    }
  }

  /** dst[i] := src[i] for every i. */
  method CopyCoefficients(src: array<Complex>, dst: array<Complex>)
    requires src.Length == dst.Length && src != dst
    modifies dst
    ensures dst[..] == src[..]
  {
    var i := 0;
    while i < dst.Length
      invariant 0 <= i <= dst.Length
      invariant forall k :: 0 <= k < i ==> dst[k] == src[k]
    {
      dst[i] := src[i];
      i := i + 1;
    }
  }

  method CopyIn(dst: array<Complex>, values: seq<Complex>)
    requires |values| == dst.Length
    modifies dst
    ensures dst[..] == values
  {
    var i := 0;
    while i < dst.Length
      invariant 0 <= i <= dst.Length
      invariant forall k :: 0 <= k < i ==> dst[k] == values[k]
    {
      dst[i] := values[i];
      i := i + 1;
    }
  }

  /** d[i] := v[i] - d[i] for every i. */
  method SubtractFrom(v: array<Complex>, d: array<Complex>)
    requires v.Length == d.Length && v != d
    modifies d
    ensures forall i :: 0 <= i < d.Length ==> d[i] == Sub(v[i], old(d[i]))
  {
    var i := 0;
    while i < d.Length
      invariant 0 <= i <= d.Length
      invariant forall k :: 0 <= k < d.Length ==> d[k] == if k < i then Sub(v[k], old(d[k])) else old(d[k])
    {
      d[i] := Sub(v[i], d[i]);
      i := i + 1;
    }
  }
}
