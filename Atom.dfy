/** One atom of the unit cell: its construction, its initialisation for a
    given potential expansion, and the assembly of its radial-integral
    tables (the matrix elements of the non-spherical potential and of the
    magnetic field between pairs of radial basis functions).

    The spline integrals themselves are numerics and enter the model as the
    uninterpreted functions of a RadialKernels value; what is modelled is
    which entry of which table is written, with which integral, by which
    rank of the communicator. */
module Atom {
  import opened Common

  /** Electronic-structure method of an atom type. */
  datatype EsmType =
    | FullPotentialLapwlo
    | FullPotentialPwlo
    | UltrasoftPseudopotential
    | NormConservingPseudopotential
    | PawPseudopotential

  predicate IsFullPotential(e: EsmType) {
    e == FullPotentialLapwlo || e == FullPotentialPwlo
  }

  /** The part of an atom type that the atom reads: its method, the orbital
      number l of each radial function (indexr), the number of muffin-tin
      radial points and the size of its local-orbital basis. */
  datatype AtomType = AtomType(esm: EsmType, indexrL: seq<nat>, numMtPoints: nat, mtLoBasisSize: nat)

  /** The numeric integrals of one pass, left uninterpreted:
      integrate(i1, i2, lm)         -- integral of rf[i1] * rf[i2] * veff(lm), i1 <= i2
      sphericalIntegral(i1, i2)     -- the symmetry class's h_spherical_integral(i1, i2)
      integrateField(i1, i2, lm, j) -- integral of rf[i1] * rf[i2] * beff_j(lm), i1 <= i2 */
  datatype RadialKernels = RadialKernels(
    integrate: (nat, nat, nat) -> real,
    sphericalIntegral: (nat, nat) -> real,
    integrateField: (nat, nat, nat, nat) -> real)

  // ---------------------------------------------------------------------
  // Specification of the radial-integral tables
  // ---------------------------------------------------------------------

  /** The selection rule: channel l of lm and the orbital numbers of the
      two radial functions have an even sum. */
  predicate ParityEven(ls: seq<nat>, lm: nat, a: nat, c: nat)
    requires a < |ls| && c < |ls|
  {
    (LOf(lm) + ls[a] + ls[c]) % 2 == 0
  }

  /** The value the assembly gives entry (lm, a, c) of the potential table
      when lm is one of the channels it handles. */
  function HValue(ls: seq<nat>, k: RadialKernels, lm: nat, a: nat, c: nat): real
    requires a < |ls| && c < |ls|
  {
    if !ParityEven(ls, lm, a, c) then 0.0
    else if lm != 0 then (if a <= c then k.integrate(a, c, lm) else k.integrate(c, a, lm))
    else k.sphericalIntegral(a, c)
  }

  /** The value the assembly gives entry (lm, a, c, j) of the field table. */
  function BValue(ls: seq<nat>, k: RadialKernels, lm: nat, a: nat, c: nat, j: nat): real
    requires a < |ls| && c < |ls|
  {
    if !ParityEven(ls, lm, a, c) then 0.0
    else if a <= c then k.integrateField(a, c, lm, j) else k.integrateField(c, a, lm, j)
  }

  /** Entry (lm, a, c) of the potential table of a rank that owns the
      channels [lo, hi): computed there, zero elsewhere. */
  function RankH(ls: seq<nat>, k: RadialKernels, lo: nat, hi: nat, lm: nat, a: nat, c: nat): real
    requires a < |ls| && c < |ls|
  {
    if lo <= lm < hi then HValue(ls, k, lm, a, c) else 0.0
  }

  function RankB(ls: seq<nat>, k: RadialKernels, lo: nat, hi: nat, lm: nat, a: nat, c: nat, j: nat): real
    requires a < |ls| && c < |ls|
  {
    if lo <= lm < hi then BValue(ls, k, lm, a, c, j) else 0.0
  }

  /** Rank r's entry (lm, a, c) of the potential table, as a function of r,
      for the channel split `bounds`. */
  function RankHByRank(ls: seq<nat>, k: RadialKernels, bounds: seq<nat>, lm: nat, a: nat, c: nat): nat -> real
    requires a < |ls| && c < |ls|
  {
    (r: nat) => if r + 1 < |bounds| then RankH(ls, k, bounds[r], bounds[r + 1], lm, a, c) else 0.0
  }

  function RankBByRank(ls: seq<nat>, k: RadialKernels, bounds: seq<nat>, lm: nat, a: nat, c: nat, j: nat): nat -> real
    requires a < |ls| && c < |ls|
  {
    (r: nat) => if r + 1 < |bounds| then RankB(ls, k, bounds[r], bounds[r + 1], lm, a, c, j) else 0.0
  }

  /** Entry (lm, a, c) of the potential table after the reduction (sum) onto
      the root of the per-rank tables of the ranks of the split `bounds`. */
  function ReducedH(ls: seq<nat>, k: RadialKernels, bounds: seq<nat>, lm: nat, a: nat, c: nat): real
    requires |bounds| >= 1 && a < |ls| && c < |ls|
  {
    SumRanks(|bounds| - 1, RankHByRank(ls, k, bounds, lm, a, c))
  }

  function ReducedB(ls: seq<nat>, k: RadialKernels, bounds: seq<nat>, lm: nat, a: nat, c: nat, j: nat): real
    requires |bounds| >= 1 && a < |ls| && c < |ls|
  {
    SumRanks(|bounds| - 1, RankBByRank(ls, k, bounds, lm, a, c, j))
  }

  /** Swapping the two radial functions does not change a potential entry
      of a non-spherical channel. */
  lemma RadialTableSymmetric(ls: seq<nat>, k: RadialKernels, lo: nat, hi: nat, lm: nat, a: nat, c: nat)
    requires a < |ls| && c < |ls| && lm != 0
    ensures RankH(ls, k, lo, hi, lm, a, c) == RankH(ls, k, lo, hi, lm, c, a)
  {
  }

  /** The field table is symmetric in every channel, the spherical one
      included. */
  lemma FieldTableSymmetric(ls: seq<nat>, k: RadialKernels, lo: nat, hi: nat, lm: nat, a: nat, c: nat, j: nat)
    requires a < |ls| && c < |ls|
    ensures RankB(ls, k, lo, hi, lm, a, c, j) == RankB(ls, k, lo, hi, lm, c, a, j)
  {
  }

  /** Entries whose channel and radial functions have an odd orbital sum
      keep the zero they were reset to, in both tables. */
  lemma ParityZero(ls: seq<nat>, k: RadialKernels, lo: nat, hi: nat, lm: nat, a: nat, c: nat, j: nat)
    requires a < |ls| && c < |ls|
    requires (LOf(lm) + ls[a] + ls[c]) % 2 == 1
    ensures RankH(ls, k, lo, hi, lm, a, c) == 0.0
    ensures RankB(ls, k, lo, hi, lm, a, c, j) == 0.0
  {
  }

  /** Channel 0 is copied entry by entry from the spherical integral, so it
      is symmetric in (a, c) exactly when that integral is. */
  lemma SphericalChannel(ls: seq<nat>, k: RadialKernels, lo: nat, hi: nat, a: nat, c: nat)
    requires a < |ls| && c < |ls|
    requires lo <= 0 < hi && ParityEven(ls, 0, a, c)
    ensures RankH(ls, k, lo, hi, 0, a, c) == k.sphericalIntegral(a, c)
    ensures RankH(ls, k, lo, hi, 0, a, c) == RankH(ls, k, lo, hi, 0, c, a)
            <==> k.sphericalIntegral(a, c) == k.sphericalIntegral(c, a)
  {
  }

  /** Summing the per-rank potential tables of a channel split gives the
      table a single rank computes (the split [0, lmmax] of one rank):
      every channel is computed by exactly one rank. */
  lemma {:induction false} ReductionIsSingleRankH(ls: seq<nat>, k: RadialKernels, bounds: seq<nat>, lmmax: nat, lm: nat, a: nat, c: nat)
    requires IsBlockPartition(bounds, lmmax) && a < |ls| && c < |ls|
    ensures ReducedH(ls, k, bounds, lm, a, c) == RankH(ls, k, 0, lmmax, lm, a, c)
  {
    var f := RankHByRank(ls, k, bounds, lm, a, c);
    SumOverBlocks(bounds, |bounds| - 1, lm, HValue(ls, k, lm, a, c), f);
  }

  /** The same for the magnetic-field tables. */
  lemma {:induction false} ReductionIsSingleRankB(ls: seq<nat>, k: RadialKernels, bounds: seq<nat>, lmmax: nat, lm: nat, a: nat, c: nat, j: nat)
    requires IsBlockPartition(bounds, lmmax) && a < |ls| && c < |ls|
    ensures ReducedB(ls, k, bounds, lm, a, c, j) == RankB(ls, k, 0, lmmax, lm, a, c, j)
  {
    var f := RankBByRank(ls, k, bounds, lm, a, c, j);
    SumOverBlocks(bounds, |bounds| - 1, lm, BValue(ls, k, lm, a, c, j), f);
  }

  // ---------------------------------------------------------------------
  // Loop bookkeeping of the assembly
  // ---------------------------------------------------------------------

  predicate IsPair(a: int, c: int, i1: int, i2: int) {
    (a == i1 && c == i2) || (a == i2 && c == i1)
  }

  /** In the i2 / i1 <= i2 loops over the pairs of one channel, the pair
      {a, c} has been visited before the step (i1, i2). */
  predicate PairVisited(i2: int, i1: int, a: int, c: int) {
    Max(a, c) < i2 || (Max(a, c) == i2 && Min(a, c) < i1)
  }

  /** The potential-table writes for the pair i1 <= i2 of channel lm: the
      integral to both orderings, or in channel 0 each ordering from its own
      spherical integral. */
  method StorePotentialPair(h: array3<real>, ls: seq<nat>, k: RadialKernels, lm: nat, i1: nat, i2: nat)
    requires h.Length1 == |ls| && h.Length2 == |ls|
    requires lm < h.Length0 && i1 <= i2 < |ls| && ParityEven(ls, lm, i1, i2)
    modifies h
    ensures forall x, a, c :: 0 <= x < h.Length0 && 0 <= a < |ls| && 0 <= c < |ls| ==>
      h[x, a, c] == (if x == lm && IsPair(a, c, i1, i2) then HValue(ls, k, lm, a, c) else old(h[x, a, c]))
  {
    if lm != 0 {
      var v := k.integrate(i1, i2, lm);
      h[lm, i2, i1] := v;
      h[lm, i1, i2] := v;
    } else {
      h[0, i1, i2] := k.sphericalIntegral(i1, i2);
      h[0, i2, i1] := k.sphericalIntegral(i2, i1);
    }
  }

  /** The field-table writes for the pair i1 <= i2 of channel lm: for each
      magnetic component j, the integral to both orderings. */
  method StoreFieldPair(b: array4<real>, ls: seq<nat>, k: RadialKernels, lm: nat, i1: nat, i2: nat)
    requires b.Length1 == |ls| && b.Length2 == |ls|
    requires lm < b.Length0 && i1 <= i2 < |ls| && ParityEven(ls, lm, i1, i2)
    modifies b
    ensures forall x, a, c, j :: 0 <= x < b.Length0 && 0 <= a < |ls| && 0 <= c < |ls| && 0 <= j < b.Length3 ==>
      b[x, a, c, j] == (if x == lm && IsPair(a, c, i1, i2) then BValue(ls, k, lm, a, c, j) else old(b[x, a, c, j]))
  {
    var j := 0;
    while j < b.Length3
      invariant 0 <= j <= b.Length3
      invariant forall x, a, c, j' :: 0 <= x < b.Length0 && 0 <= a < |ls| && 0 <= c < |ls| && 0 <= j' < b.Length3 ==>
        b[x, a, c, j'] == (if x == lm && IsPair(a, c, i1, i2) && j' < j
                           then BValue(ls, k, lm, a, c, j') else old(b[x, a, c, j']))
    {
      var v := k.integrateField(i1, i2, lm, j);
      b[lm, i2, i1, j] := v;
      b[lm, i1, i2, j] := v;
      j := j + 1;
    }
  }

  /** The innermost step of the assembly: for channel lm (of orbital
      number l) and the pair i1 <= i2, write both tables when the selection
      rule allows it. */
  method StorePair(h: array3<real>, b: array4<real>, ls: seq<nat>, k: RadialKernels, lm: nat, l: nat, i1: nat, i2: nat)
    requires h.Length1 == |ls| && h.Length2 == |ls|
    requires b.Length0 == h.Length0 && b.Length1 == |ls| && b.Length2 == |ls|
    requires lm < h.Length0 && l == LOf(lm) && i1 <= i2 < |ls|
    modifies h, b
    ensures forall x, a, c :: 0 <= x < h.Length0 && 0 <= a < |ls| && 0 <= c < |ls| ==>
      h[x, a, c] == (if x == lm && IsPair(a, c, i1, i2) && ParityEven(ls, lm, a, c)
                     then HValue(ls, k, lm, a, c) else old(h[x, a, c]))
    ensures forall x, a, c, j :: 0 <= x < b.Length0 && 0 <= a < |ls| && 0 <= c < |ls| && 0 <= j < b.Length3 ==>
      b[x, a, c, j] == (if x == lm && IsPair(a, c, i1, i2) && ParityEven(ls, lm, a, c)
                        then BValue(ls, k, lm, a, c, j) else old(b[x, a, c, j]))
  {
    if (l + ls[i1] + ls[i2]) % 2 == 0 {
      StorePotentialPair(h, ls, k, lm, i1, i2);
      StoreFieldPair(b, ls, k, lm, i1, i2);
    }
  }

  /** All pairs i1 <= i2 of one channel lm (of orbital number l): every
      entry of the channel with an even orbital sum gets its integral, and
      every other entry keeps its value. */
  method AssembleChannel(h: array3<real>, b: array4<real>, ls: seq<nat>, k: RadialKernels, lm: nat, l: nat)
    requires h.Length1 == |ls| && h.Length2 == |ls|
    requires b.Length0 == h.Length0 && b.Length1 == |ls| && b.Length2 == |ls|
    requires lm < h.Length0 && l == LOf(lm)
    modifies h, b
    ensures forall x, a, c :: 0 <= x < h.Length0 && 0 <= a < |ls| && 0 <= c < |ls| ==>
      h[x, a, c] == (if x == lm && ParityEven(ls, lm, a, c) then HValue(ls, k, lm, a, c) else old(h[x, a, c]))
    ensures forall x, a, c, j :: 0 <= x < b.Length0 && 0 <= a < |ls| && 0 <= c < |ls| && 0 <= j < b.Length3 ==>
      b[x, a, c, j] == (if x == lm && ParityEven(ls, lm, a, c) then BValue(ls, k, lm, a, c, j) else old(b[x, a, c, j]))
  {
    var nrf := |ls|;
    var i2 := 0;
    while i2 < nrf
      invariant 0 <= i2 <= nrf
      invariant forall x, a, c :: 0 <= x < h.Length0 && 0 <= a < nrf && 0 <= c < nrf ==>
        h[x, a, c] == (if x == lm && PairVisited(i2, 0, a, c) && ParityEven(ls, lm, a, c)
                       then HValue(ls, k, lm, a, c) else old(h[x, a, c]))
      invariant forall x, a, c, j :: 0 <= x < b.Length0 && 0 <= a < nrf && 0 <= c < nrf && 0 <= j < b.Length3 ==>
        b[x, a, c, j] == (if x == lm && PairVisited(i2, 0, a, c) && ParityEven(ls, lm, a, c)
                          then BValue(ls, k, lm, a, c, j) else old(b[x, a, c, j]))
    {
      var i1 := 0;
      while i1 <= i2
        invariant 0 <= i1 <= i2 + 1
        invariant forall x, a, c :: 0 <= x < h.Length0 && 0 <= a < nrf && 0 <= c < nrf ==>
          h[x, a, c] == (if x == lm && PairVisited(i2, i1, a, c) && ParityEven(ls, lm, a, c)
                         then HValue(ls, k, lm, a, c) else old(h[x, a, c]))
        invariant forall x, a, c, j :: 0 <= x < b.Length0 && 0 <= a < nrf && 0 <= c < nrf && 0 <= j < b.Length3 ==>
          b[x, a, c, j] == (if x == lm && PairVisited(i2, i1, a, c) && ParityEven(ls, lm, a, c)
                            then BValue(ls, k, lm, a, c, j) else old(b[x, a, c, j]))
      {
        StorePair(h, b, ls, k, lm, l, i1, i2);
        i1 := i1 + 1;
      }
      i2 := i2 + 1;
    }
  }

  /** The channels [lo, hi) of a rank's block, in order: each channel gets
      the integrals of its pairs with an even orbital sum, and channels
      outside the block keep their values. */
  method AssembleBlock(h: array3<real>, b: array4<real>, ls: seq<nat>, k: RadialKernels, lmax: int, lo: nat, hi: nat)
    requires lmax >= -1 && h.Length0 == Lmmax(lmax)
    requires h.Length1 == |ls| && h.Length2 == |ls|
    requires b.Length0 == h.Length0 && b.Length1 == |ls| && b.Length2 == |ls|
    requires lo <= hi <= h.Length0
    modifies h, b
    ensures forall x, a, c :: 0 <= x < h.Length0 && 0 <= a < |ls| && 0 <= c < |ls| ==>
      h[x, a, c] == (if lo <= x < hi && ParityEven(ls, x, a, c) then HValue(ls, k, x, a, c) else old(h[x, a, c]))
    ensures forall x, a, c, j :: 0 <= x < b.Length0 && 0 <= a < |ls| && 0 <= c < |ls| && 0 <= j < b.Length3 ==>
      b[x, a, c, j] == (if lo <= x < hi && ParityEven(ls, x, a, c) then BValue(ls, k, x, a, c, j) else old(b[x, a, c, j]))
  {
    var lByLm := LByLm(lmax);
    var lm := lo;
    while lm < hi
      invariant lo <= lm <= hi
      invariant forall x, a, c :: 0 <= x < h.Length0 && 0 <= a < |ls| && 0 <= c < |ls| ==>
        h[x, a, c] == (if lo <= x < lm && ParityEven(ls, x, a, c) then HValue(ls, k, x, a, c) else old(h[x, a, c]))
      invariant forall x, a, c, j :: 0 <= x < b.Length0 && 0 <= a < |ls| && 0 <= c < |ls| && 0 <= j < b.Length3 ==>
        b[x, a, c, j] == (if lo <= x < lm && ParityEven(ls, x, a, c) then BValue(ls, k, x, a, c, j) else old(b[x, a, c, j]))
    {
      var l := lByLm[lm];
      LOfUnique(lm, l);
      AssembleChannel(h, b, ls, k, lm, l);
      lm := lm + 1;
    }
  }

  // ---------------------------------------------------------------------
  // The atom
  // ---------------------------------------------------------------------

  /** The 16 x 16 x 2 x 2 shape of the occupation and U-J correction
      matrices: (3 + 1)^2 channels up to l = 3, two spin indices. */
  predicate IsOccupationShaped(m: array4<Complex>) {
    m.Length0 == 16 && m.Length1 == 16 && m.Length2 == 2 && m.Length3 == 2
  }

  class Atom {
    const atomType: AtomType
    /** Position in fractional coordinates and the starting vector field. */
    var position: seq<real>
    var vectorField: seq<real>
    var offsetAw: int
    var offsetLo: int
    var offsetWf: int
    var applyUjCorrection: bool
    var ujCorrectionL: int
    var lmaxPot: int
    var numMagDims: nat
    /** Radial integrals of the potential, lmmax x nrf x nrf. */
    var hRadialIntegrals: array3<real>
    /** Radial integrals of the magnetic field, lmmax x nrf x nrf x num_mag_dims. */
    var bRadialIntegrals: array4<real>
    /** Shapes (lmmax, muffin-tin points) of the effective potential and of
        each of the three components of the effective magnetic field. */
    var veffShape: (nat, nat)
    var beffShape: (nat, nat)
    var occupationMatrix: array4<Complex>
    var ujCorrectionMatrix: array4<Complex>
    var dMtrx: array2<real>

    /** Number of radial functions of the atom's type. */
    function NumRadialFunctions(): nat
    {
      |atomType.indexrL|
    }

    /** The radial-integral tables have the shape Init gives them for a
        full-potential type. */
    predicate RadialTablesShaped()
      reads this
    {
      && lmaxPot >= -1
      && hRadialIntegrals.Length0 == Lmmax(lmaxPot)
      && hRadialIntegrals.Length1 == NumRadialFunctions()
      && hRadialIntegrals.Length2 == NumRadialFunctions()
      && bRadialIntegrals.Length0 == Lmmax(lmaxPot)
      && bRadialIntegrals.Length1 == NumRadialFunctions()
      && bRadialIntegrals.Length2 == NumRadialFunctions()
      && bRadialIntegrals.Length3 == numMagDims
    }

    /** Copies three position and three vector-field components; every
        offset starts at -1 and no U-J correction is applied. The tables
        start empty (not yet allocated). */
    constructor (t: AtomType, pos: seq<real>, field: seq<real>)
      requires |pos| >= 3 && |field| >= 3
      ensures atomType == t
      ensures position == pos[..3] && vectorField == field[..3]
      ensures offsetAw == -1 && offsetLo == -1 && offsetWf == -1
      ensures !applyUjCorrection && ujCorrectionL == -1
      ensures hRadialIntegrals.Length0 == 0 && bRadialIntegrals.Length0 == 0 && dMtrx.Length0 == 0
    {
      atomType := t;
      position, vectorField := pos[..3], field[..3];
      offsetAw, offsetLo, offsetWf := -1, -1, -1;
      applyUjCorrection, ujCorrectionL := false, -1;
      lmaxPot, numMagDims := -1, 0;
      veffShape, beffShape := (0, 0), (0, 0);
      hRadialIntegrals := new real[0, 0, 0];
      bRadialIntegrals := new real[0, 0, 0, 0];
      occupationMatrix := new Complex[0, 0, 0, 0];
      ujCorrectionMatrix := new Complex[0, 0, 0, 0];
      dMtrx := new real[0, 0];
    }

    /** Stores the offsets, the potential expansion order and the number of
        magnetic dimensions; sizes the radial-integral tables, the shapes of
        the effective potential and field and the occupation matrices for
        full-potential types, and the D-matrix for the ultrasoft type, and
        leaves the other tables alone. */
    method Init(lmaxPotArg: int, numMagDimsArg: nat, offsetAwArg: int, offsetLoArg: int, offsetWfArg: int)
      requires lmaxPotArg >= -1
      requires offsetAwArg >= 0
      modifies this`offsetAw, this`offsetLo, this`offsetWf, this`lmaxPot, this`numMagDims
      modifies this`hRadialIntegrals, this`bRadialIntegrals, this`veffShape, this`beffShape
      modifies this`occupationMatrix, this`ujCorrectionMatrix, this`dMtrx
      ensures offsetAw == offsetAwArg && offsetLo == offsetLoArg && offsetWf == offsetWfArg
      ensures lmaxPot == lmaxPotArg && numMagDims == numMagDimsArg
      ensures IsFullPotential(atomType.esm) ==>
        && fresh(hRadialIntegrals) && fresh(bRadialIntegrals) && RadialTablesShaped()
        && veffShape == (Lmmax(lmaxPot), atomType.numMtPoints) && beffShape == (Lmmax(lmaxPot), atomType.numMtPoints)
        && fresh(occupationMatrix) && fresh(ujCorrectionMatrix)
        && IsOccupationShaped(occupationMatrix) && IsOccupationShaped(ujCorrectionMatrix)
      ensures !IsFullPotential(atomType.esm) ==>
        && hRadialIntegrals == old(hRadialIntegrals) && bRadialIntegrals == old(bRadialIntegrals)
        && veffShape == old(veffShape) && beffShape == old(beffShape)
        && occupationMatrix == old(occupationMatrix) && ujCorrectionMatrix == old(ujCorrectionMatrix)
      ensures atomType.esm == UltrasoftPseudopotential ==>
        fresh(dMtrx) && dMtrx.Length0 == atomType.mtLoBasisSize && dMtrx.Length1 == atomType.mtLoBasisSize
      ensures atomType.esm != UltrasoftPseudopotential ==> dMtrx == old(dMtrx)
    {
      offsetAw, offsetLo, offsetWf := offsetAwArg, offsetLoArg, offsetWfArg;
      lmaxPot, numMagDims := lmaxPotArg, numMagDimsArg;
      SizeFullPotentialTables();
      SizeDMatrix();
    }

    /** The full-potential part of Init: for a full-potential type,
        radial-integral tables of lmmax channels, potential and field shapes
        of lmmax x (muffin-tin points), and 16 x 16 x 2 x 2 occupation and
        U-J correction matrices; for any other type, nothing. */
    method SizeFullPotentialTables()
      requires lmaxPot >= -1
      modifies this`hRadialIntegrals, this`bRadialIntegrals, this`veffShape, this`beffShape
      modifies this`occupationMatrix, this`ujCorrectionMatrix
      ensures IsFullPotential(atomType.esm) ==>
        && fresh(hRadialIntegrals) && fresh(bRadialIntegrals) && RadialTablesShaped()
        && veffShape == (Lmmax(lmaxPot), atomType.numMtPoints) && beffShape == (Lmmax(lmaxPot), atomType.numMtPoints)
        && fresh(occupationMatrix) && fresh(ujCorrectionMatrix)
        && IsOccupationShaped(occupationMatrix) && IsOccupationShaped(ujCorrectionMatrix)
      ensures !IsFullPotential(atomType.esm) ==>
        && hRadialIntegrals == old(hRadialIntegrals) && bRadialIntegrals == old(bRadialIntegrals)
        && veffShape == old(veffShape) && beffShape == old(beffShape)
        && occupationMatrix == old(occupationMatrix) && ujCorrectionMatrix == old(ujCorrectionMatrix)
    {
      if IsFullPotential(atomType.esm) {
        var lmmax := Lmmax(lmaxPot);
        var nrf := NumRadialFunctions();
        hRadialIntegrals := new real[lmmax, nrf, nrf];
        veffShape := (lmmax, atomType.numMtPoints);
        bRadialIntegrals := new real[lmmax, nrf, nrf, numMagDims];
        beffShape := (lmmax, atomType.numMtPoints);
        occupationMatrix := new Complex[16, 16, 2, 2];
        ujCorrectionMatrix := new Complex[16, 16, 2, 2];
      }
    }

    /** The ultrasoft part of Init: a square D-matrix of the local-orbital
        basis size for the ultrasoft type; for any other type, nothing. */
    method SizeDMatrix()
      modifies this`dMtrx
      ensures atomType.esm == UltrasoftPseudopotential ==>
        fresh(dMtrx) && dMtrx.Length0 == atomType.mtLoBasisSize && dMtrx.Length1 == atomType.mtLoBasisSize
      ensures atomType.esm != UltrasoftPseudopotential ==> dMtrx == old(dMtrx)
    {
      if atomType.esm == UltrasoftPseudopotential {
        dMtrx := new real[atomType.mtLoBasisSize, atomType.mtLoBasisSize];
      }
    }

    /** Assembles this rank's share of the radial-integral tables: both
        tables are reset to zero, then every channel of the rank's block
        [bounds[rank], bounds[rank + 1]) of the channel split gets, for every pair with an even orbital sum, the
        integral written to both orderings (channel 0 of the potential table
        copied from the spherical integral). With no magnetic dimensions the
        field table is empty and is left as it is. */
    method GenerateRadialIntegrals(rank: nat, bounds: seq<nat>, k: RadialKernels)
      requires RadialTablesShaped()
      requires IsBlockPartition(bounds, Lmmax(lmaxPot)) && rank < |bounds| - 1
      modifies hRadialIntegrals, bRadialIntegrals
      ensures forall lm, a, c :: 0 <= lm < hRadialIntegrals.Length0 && 0 <= a < NumRadialFunctions() && 0 <= c < NumRadialFunctions() ==>
          hRadialIntegrals[lm, a, c] == RankH(atomType.indexrL, k, bounds[rank], bounds[rank + 1], lm, a, c)
      ensures forall lm, a, c, j ::
          (0 <= lm < bRadialIntegrals.Length0 && 0 <= a < NumRadialFunctions() && 0 <= c < NumRadialFunctions()
           && 0 <= j < bRadialIntegrals.Length3) ==>
          bRadialIntegrals[lm, a, c, j] == RankB(atomType.indexrL, k, bounds[rank], bounds[rank + 1], lm, a, c, j)
    {
      PartitionBlockInRange(bounds, Lmmax(lmaxPot), rank);
      var h, b := hRadialIntegrals, bRadialIntegrals;
      forall x, a, c | 0 <= x < h.Length0 && 0 <= a < h.Length1 && 0 <= c < h.Length2 {
        h[x, a, c] := 0.0;
      }
      if numMagDims != 0 {
        forall x, a, c, j | 0 <= x < b.Length0 && 0 <= a < b.Length1 && 0 <= c < b.Length2 && 0 <= j < b.Length3 {
          b[x, a, c, j] := 0.0;
        }
      }
      AssembleBlock(h, b, atomType.indexrL, k, lmaxPot, bounds[rank], bounds[rank + 1]);
    }
  }
}
