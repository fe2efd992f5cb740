# SIRIUS potential and Hamiltonian bookkeeping, in Dafny

This project models the exact, table-filling layer of three parts of the
SIRIUS electronic-structure library. The floating-point physics is not
modelled; the integrals, Bessel-function tables and solver outputs it
produces are uninterpreted parameters. What is modelled is which entry of
which table is written, with what, at which offset, and how the state left
from one pass carries into the next.

- `Atom.dfy`: `Atom` (src/atom.cpp).
  - The constructor copies three position and three vector-field
    components and resets the offsets.
  - `init` stores the offsets and the potential expansion order, and sizes
    the radial-integral, occupation and D-matrix tables according to the
    atom type's method.
  - `generate_radial_integrals`:
    - each rank takes a contiguous block of the angular channels `lm`;
    - for every pair of radial functions whose orbital numbers have an
      even sum with `l`, one integral goes to both orderings;
    - channel 0 is copied from the spherical integral;
    - the per-rank tables are summed onto the root; this last step is
      stated by lemmas about the sum of the per-rank tables.
- `NonLocalOperator.dfy`: the packed D / Q operator and the Hubbard U
  operator (src/hamiltonian/non_local_operator.hpp).
  - The packed operator's accessors are its three-argument `value` (spin
    block 0), its four-argument `value` and `is_diag`. The buffer layout
    they read is the one the commented-out `P_operator` of the same header
    writes: per-atom blocks at running offsets, column-major inside a
    block, one column per spin index.
  - The `U_operator` constructor zeroes a dense matrix, then copies each
    Hubbard atom's local block onto its diagonal position. Its accessors
    are `nhwf`, `offset` and `operator()`.
- `Potential.dfy`: the potential engine (src/potential/potential.cpp).
  - The constructor:
    - chooses the angular cut-off;
    - fills the i^l tables `zil`, and `zilm` (one entry per channel);
    - sizes the `vsigma` set for a gradient correction;
    - allocates the relativity buffers, with the `switch` fall-through;
    - sets up `aux_bf` and the zeroed per-atom D-matrix blocks.
  - `update` fills the moments of spherical Bessel functions (with the
    G = 0 case on rank 0). It also fills the Gamma-factor table, through
    the split running product `f1`, `f2`.
  - `is_gradient_correction` is modelled.
  - `generate` models the `dveff` difference between the new and the
    previous plane-wave coefficients, and the geometric decay of `aux_bf`.
- `Common.dfy`: the shared vocabulary.
  - Complex numbers with exact parts.
  - i^l as the exact period-4 cycle, proved equal to the l-th power of i.
  - Integer powers of reals.
  - The (l, m) -> lm packing, with `lmmax = (lmax + 1)^2` and `l_by_lm`.
  - The block split of an index range over the ranks of a communicator,
    and the sum of per-rank tables.

Doubles and long doubles are Dafny `real`s (exact). `std::complex<double>`
is a pair of reals. Integer indices are unbounded.

## Model

| member | source | states |
|---|---|---|
| Common.IPowIsPower | src/potential/potential.cpp:53-57 | the period-4 table 1, i, -1, -i at l is exactly the l-th power of the imaginary unit, so it is what `std::pow(i, l)` computes |
| Common.IPowPeriod | src/potential/potential.cpp:53-57 | i^(l+4) = i^l and i^(l+2) = -i^l |
| Common.LmmaxIsSquare | src/atom.cpp:91 | the number of (l, m) channels up to lmax is (lmax + 1)^2 |
| Common.LOf | src/atom.cpp:117 | the orbital number owning packed index lm is the l with l^2 <= lm < (l+1)^2 |
| Common.LOfUnique | src/atom.cpp:117 | that l is unique: any l with l^2 <= lm < (l+1)^2 is the owner of lm |
| Common.LByLm | src/atom.cpp:96 | `l_by_lm(lmax)` has (lmax+1)^2 entries, each at most lmax and owning its index |
| Common.PartitionBlockInRange | src/atom.cpp:94 | every rank's block of a contiguous split of [0, n) lies inside [0, n] |
| Common.BlockBounds | src/atom.cpp:94 | the block split of [0, lmmax) over p ranks starts at 0, ends at lmmax, is monotone, and is [0, lmmax] for one rank |
| Common.SumOverBlocks | src/atom.cpp:162-163 | if each rank contributes a value exactly on its own block and zero elsewhere, summing over ranks gives the value on the whole covered range |
| Common.RPowDecays | src/potential/potential.cpp:375-381 | for 0 < f < 1 the powers of f are positive, at most 1 and strictly decreasing |
| Atom.Atom.constructor | src/atom.cpp:29-45 | the type is stored, exactly three position and three vector-field components are copied, the three offsets are -1, no U-J correction is applied, the tables are empty |
| Atom.Atom.Init | src/atom.cpp:47-85 | requires lmax_pot >= -1 and offset_aw >= 0; stores the three offsets, lmax_pot and num_mag_dims; sizes the potential table lmmax x nrf x nrf, the field table lmmax x nrf x nrf x num_mag_dims, the veff/beff shapes and the 16x16x2x2 occupation matrices only for full-potential types, and a square D-matrix of the local-orbital basis size only for the ultrasoft type; every other table is kept |
| Atom.Atom.SizeFullPotentialTables | src/atom.cpp:59-78 | the full-potential branch of `init`: fresh tables of the stated shapes for full-potential types, nothing changed otherwise |
| Atom.Atom.SizeDMatrix | src/atom.cpp:80-84 | the ultrasoft branch of `init`: a fresh square D-matrix of size mt_lo_basis_size, nothing changed otherwise |
| Atom.Atom.GenerateRadialIntegrals | src/atom.cpp:87-161 | for any split of [0, lmmax) into contiguous per-rank blocks, before the reduction onto rank 0, every entry of both tables equals this rank's table for its block of channels: the integral for entries with an even orbital sum in the rank's channels, zero everywhere else |
| Atom.AssembleBlock | src/atom.cpp:114-117 | the channel loop over the rank's block [lo, hi) writes exactly the entries of those channels with an even orbital sum, using `l_by_lm[lm]` as the channel's l, and keeps every other entry |
| Atom.AssembleChannel | src/atom.cpp:120-157 | the i2 / i1 <= i2 loops of one channel write exactly its entries with an even orbital sum, in both orderings, and keep every other entry |
| Atom.StorePair | src/atom.cpp:136-156 | the parity test: an odd pair changes nothing; an even pair writes both orderings in both tables |
| Atom.StorePotentialPair | src/atom.cpp:141-150 | for lm != 0 the integral of (i1, i2) goes to both orderings; for lm = 0 each ordering gets its own spherical integral; nothing else changes |
| Atom.StoreFieldPair | src/atom.cpp:151-155 | for each magnetic component j < num_mag_dims the field integral goes to both orderings; nothing else changes |
| Atom.RadialTableSymmetric | src/atom.cpp:141-145 | for lm != 0 the potential table is symmetric in the two radial functions |
| Atom.FieldTableSymmetric | src/atom.cpp:151-155 | the field table is symmetric in the two radial functions in every channel, lm = 0 included |
| Atom.ParityZero | src/atom.cpp:136-139 | an entry whose channel l and orbital numbers have an odd sum stays zero in both tables |
| Atom.SphericalChannel | src/atom.cpp:146-150 | channel 0 holds the spherical integral, and it is symmetric exactly when the spherical integral is |
| Atom.ReductionIsSingleRankH | src/atom.cpp:162 | summing the per-rank potential tables of any block partition of [0, lmmax) gives the table of a single rank owning all channels |
| Atom.ReductionIsSingleRankB | src/atom.cpp:163 | the same for the field tables |
| NonLocalOperator.PackedOffsets | src/hamiltonian/non_local_operator.hpp:52-54 | the first atom's block starts at 0 and each later block starts where the previous nbf x nbf block ends |
| NonLocalOperator.PackedIndexInBounds | src/hamiltonian/non_local_operator.hpp:52-57 | every element (xi1, xi2) of every atom's block lies inside the packed buffer |
| NonLocalOperator.PackedIndexInjective | src/hamiltonian/non_local_operator.hpp:52-57 | distinct (atom, xi1, xi2) address distinct buffer entries |
| NonLocalOperator.Operator.constructor | src/hamiltonian/non_local_operator.hpp:59-62 | a fresh operator is not null and is diagonal in spin, with the packed layout of its atoms |
| NonLocalOperator.Operator.ValueSpin | src/hamiltonian/non_local_operator.hpp:89-90 | the four-argument value reads element (offset + xi2 * nbf + xi1, ispn) of a two-axis real buffer, the index the commented-out `P_operator` writes at line 193, and that index is in bounds |
| NonLocalOperator.Operator.Value | src/hamiltonian/non_local_operator.hpp:83-87 | the three-argument value is the four-argument one at spin index 0 |
| NonLocalOperator.Operator.IsDiag | src/hamiltonian/non_local_operator.hpp:92-95 | `is_diag()` returns the spin-diagonal flag |
| NonLocalOperator.CopyBlock | src/hamiltonian/non_local_operator.hpp:141-148 | the j / m1 / m2 loops set entry (offset + m1, offset + m2, j) to the atom's local value for every m1, m2 < nb and every j, and change nothing else |
| NonLocalOperator.UOperator.constructor | src/hamiltonian/non_local_operator.hpp:126-151 | nhwf and the offsets are the pair from `num_hubbard_wf()`; um is a fresh nhwf x nhwf x (num_mag_dims+1) matrix equal to the zero matrix overwritten by every Hubbard atom's block in atom order; requires each Hubbard block to fit |
| NonLocalOperator.BlockCopied | src/hamiltonian/non_local_operator.hpp:139-150 | with non-overlapping blocks, um(offset[ia]+m1, offset[ia]+m2, j) is the atom's local (m1, m2, j) for every Hubbard atom |
| NonLocalOperator.OutsideBlocksZero | src/hamiltonian/non_local_operator.hpp:134-136 | an entry outside every Hubbard atom's block is zero: inter-atom blocks stay zero |
| NonLocalOperator.NonHubbardAtomIgnored | src/hamiltonian/non_local_operator.hpp:140 | the matrix does not depend on an atom without a Hubbard correction |
| NonLocalOperator.UOperator.Nhwf | src/hamiltonian/non_local_operator.hpp:157-160 | returns the stored number of Hubbard orbitals |
| NonLocalOperator.UOperator.Offset | src/hamiltonian/non_local_operator.hpp:162-165 | returns atom ia's stored offset |
| NonLocalOperator.UOperator.Get | src/hamiltonian/non_local_operator.hpp:167-170 | reads um(m1, m2, j) unchanged |
| Potential.ChooseLmax | src/potential/potential.cpp:37-44 | lmax bounds max(lmax_rho, lmax_pot) in full-potential mode, 2 * unit-cell lmax otherwise, and sht_lmax; it is one of those candidates, so it is their maximum |
| Potential.BuildZil | src/potential/potential.cpp:54-57 | zil has lmax + 1 entries (none when lmax < 0), and zil[l] = i^l |
| Potential.FillChannels | src/potential/potential.cpp:61-63 | the m loop from -l to l sets exactly the 2l + 1 entries from the running counter on, and changes nothing else |
| Potential.BuildZilm | src/potential/potential.cpp:59-64 | zilm has (lmax+1)^2 entries, and zilm[lm] = zil[l] for the l that owns lm |
| Potential.BuildIPowTables | src/potential/potential.cpp:46-65 | the i^l tables exist only when lmax >= 0: zil[l] = i^l and zilm[lm] = i^l for the owner l of lm |
| Potential.RelativityBuffersNest | src/potential/potential.cpp:111-121 | the fall-through: a buffer is needed exactly when the switch enters at or before its case (`iora` at the first, `zora` at the second, every other mode at `default`), so rm2_inv implies rm_inv |
| Potential.AllocateRelativityBuffers | src/potential/potential.cpp:111-121 | rm2_inv_pw exists iff IORA, rm_inv_pw iff IORA or ZORA, veff_pw always; each is fresh with num_gvec entries |
| Potential.AllocatePseudoBuffers | src/potential/potential.cpp:99-103 | a fresh, zeroed dveff with one entry per local G-vector of the FFT distribution, and one zeroed D-matrix block per atom |
| Potential.AllocateModeBuffers | src/potential/potential.cpp:99-142 | dveff and the D-matrix blocks exist exactly in pseudopotential mode, the relativity buffers exactly in full-potential mode; each is fresh, the relativity buffers have num_gvec entries, dveff and the blocks have the shapes and zero contents stated above |
| Potential.NumVsigma | src/potential/potential.cpp:92-97 | at most 3 vsigma buffers, none exactly when no functional needs a gradient correction |
| Potential.InitialAuxBf | src/potential/potential.cpp:124-133 | aux_bf is a fresh 3 x num_atoms table, all 1 when 0 < reduce_aux_bf < 1 and all 0 otherwise |
| Potential.ScaleColumn | src/potential/potential.cpp:377-379 | one atom's three entries are multiplied by the factor and every other entry is unchanged |
| Potential.ScaleAuxBf | src/potential/potential.cpp:375-381 | every entry of the 3 x num_atoms table is multiplied by the factor |
| Potential.DecayAuxBf | src/potential/potential.cpp:375-381 | scaling happens only for a factor in (0, 1); entries holding factor^k (or 0) hold factor^(k+1) (or 0) afterwards |
| Potential.AuxBfDecays | src/potential/potential.cpp:375-381 | with a factor in (0, 1) aux_bf stays positive and shrinks strictly with every pass, by exactly that factor |
| Potential.ZeroedBlock | src/potential/potential.cpp:139-140 | a fresh nbf x nbf x components block, all zero |
| Potential.ZeroedDMatrices | src/potential/potential.cpp:135-142 | one fresh zeroed nbf x nbf x (num_mag_dims + 1) block per atom, nbf being that atom's muffin-tin basis size |
| Potential.IsGradientCorrection | src/potential/potential.cpp:232-242 | true iff at least one XC functional is GGA or van der Waals |
| Potential.ZeroWavevectorMoments | src/potential/potential.cpp:176-196 | on rank 0 at G = 0 the moment is R^3/3 for l = 0 and 0 for l > 0; every other G on every rank gets R^(l+2) j_(l+1) divided by the length of G |
| Potential.FillMomentColumn | src/potential/potential.cpp:191-194 | the l loop writes the Bessel moment of one G and atom type for every l and changes nothing else |
| Potential.FillMomentsOfType | src/potential/potential.cpp:189-195 | the G loop from ig0 (1 on rank 0, else 0) writes the moments of one atom type for those G and changes nothing else |
| Potential.BuildSbesselMom | src/potential/potential.cpp:176-196 | a fresh (lmax_rho+1) x count x num_atom_types table whose every entry is the moment of the specification above |
| Potential.HalfProductIsGammaRatio | src/potential/potential.cpp:198-200 | the product of n/2 for n = 2l+3, ..., 2l+3+2p is the rising product (l+3/2)...(l+3/2+p), i.e. Gamma(5/2+p+l)/Gamma(3/2+l) |
| Potential.HalfProductAtLeastOne | src/potential/potential.cpp:207-218 | every factor n/2 with n >= 2 is at least 1, so the whole product is |
| Potential.SplitStep | src/potential/potential.cpp:213-217 | one factor goes to f1 while f1 < R^l and to f2 otherwise; both stay >= 1 and their product gains exactly that factor |
| Potential.CombineSplit | src/potential/potential.cpp:219 | (f1 / R^l) * f2 is the whole product divided by R^l |
| Potential.SplitGammaProduct | src/potential/potential.cpp:205-219 | after the loop over the p + 1 factors, f1 >= 1, f2 >= 1, f1 * f2 is the product of n/2, and the result is that product over R^l |
| Potential.BuildGammaFactors | src/potential/potential.cpp:201-221 | a fresh (lmax_rho+1) x num_atom_types table with entry (l, iat) = Gamma(5/2+p+l)/Gamma(3/2+l)/R_iat^l |
| Potential.AllocateTables | src/potential/potential.cpp:37-142 | the constructor's values before they are stored: lmax is the chosen cut-off; l_by_lm, zil and zilm are the tables above; the vsigma count follows the gradient correction; dveff is zero and the D-matrix blocks are zero and shaped by the basis sizes; the buffers are fresh, present exactly in their mode and sized (the relativity buffers with num_gvec entries); aux_bf holds its starting value |
| Potential.Potential.constructor | src/potential/potential.cpp:37-142 | stores those values: lmax is the chosen cut-off; l_by_lm, zil and zilm are the i^l tables; the XC list is copied; the vsigma count follows the gradient correction; dveff and the D-matrix blocks are zero; every buffer is fresh, present exactly in its mode and shaped, the relativity buffers with num_gvec entries; no pass has been done |
| Potential.Potential.Update | src/potential/potential.cpp:155-222 | in full-potential mode both geometry tables are rebuilt fresh and agree with their specifications; in pseudopotential mode they are untouched |
| Potential.Create | src/potential/potential.cpp:30-152 | fails iff the context is not initialised; otherwise returns a valid, fresh engine with everything the constructor states about lmax, l_by_lm, the i^l tables, the XC list, the vsigma count, the zeroed dveff and D-matrix blocks, no pass done, the caller's coefficient buffer kept, every buffer fresh, and, in full-potential mode, geometry tables that agree with their specifications |
| Potential.CopyCoefficients | src/potential/potential.cpp:251-253 | the saved buffer becomes a copy of the current coefficients |
| Potential.CopyIn | src/potential/potential.cpp:256-309 | the coefficients become the new ones the pass produced |
| Potential.SubtractFrom | src/potential/potential.cpp:322-324 | each saved coefficient becomes new minus saved |
| Potential.ReplaceAndDiff | src/potential/potential.cpp:249-325 | afterwards the coefficients are the new ones and dveff holds new minus previous, entry by entry |
| Potential.Potential.Generate | src/potential/potential.cpp:244-382 | the coefficients become the new ones; in pseudopotential mode dveff = new - previous; aux_bf is multiplied by the factor when it lies in (0, 1), so it still holds factor^k after k passes; the buffer shapes are kept; nothing else but the D-matrix blocks changes |

## Left out

- Numerics:
  - spline interpolation and integration;
  - the spherical integral;
  - spherical Bessel functions;
  - the SHT object and its check;
  - `y00` scaling.

  The values they produce are uninterpreted functions (`RadialKernels`, `sbesselMt`) or parameters.
- The solvers that produce a pass's potential. These are `poisson`, `xc`, `fft_transform`, `symmetrize_field4d`, `veff_callback`, `generate_PAW_effective_potential`, the Hubbard `generate_potential`, `generate_local_potential`, `ewald_energy`, `generate_gvec_ylm`, `generate_sbessel_mt` and `vdw_update_unit_cell`. `Generate` receives the coefficients they leave as `newVeff`. The `use_symmetry` and `transform_to_rg` flags only steer those solvers, so they are not parameters.
- MPI and OpenMP. The reduction onto rank 0 is the sum of per-rank tables (`SumRanks`), related to the single-rank table by lemmas rather than by a method over all ranks' arrays. The `splindex<block>` class is not part of this model. `GenerateRadialIntegrals` takes the split as any partition of the channels into contiguous per-rank blocks; `BlockBounds` shows that blocks of ceil(n / p) channels are one such partition.
- Allocations that hold no modelled content:
  - the Hartree, XC and XC-energy-density functions;
  - `local_potential_`, `vh_el_` and `gvec_ylm_`;
  - the Hubbard potential and `init_PAW`;
  - the XC density threshold.
- The commented-out `P_operator`, the `apply` overloads and the D / Q `initialize` methods.
- Hash printing and verbose dumps.
- `update_atomic_potential`.
- The body of the `Non_local_operator` constructor (its pass over the atoms that fills the offsets and the buffer) and the body of the four-argument `value` are in non_local_operator.cpp, which is not part of this model. The model's constructor covers only the member initialisers and the packed offsets. The packed layout (offsets as running sums of the nbf x nbf block sizes, column-major inside a block) is the one the commented-out `P_operator` at lines 173-202 of the header writes.
- NonLocalOperator.Operator.ValueSpin: the header declares `value<T>` without a body over a three-axis `mdarray<double, 3>` buffer. The model reads a two-axis real buffer indexed (packed index, spin index), as `P_operator` writes it. The buffer's third axis and the complex instantiation of `value<T>` are not modelled.
- Atom.Atom.GenerateRadialIntegrals: states each rank's tables just before the reduction onto rank 0 (lines 162-163). The summed result is stated by `Atom.ReductionIsSingleRankH` and `Atom.ReductionIsSingleRankB` over all ranks' tables, not by this method.
- Potential.IsGradientCorrection: takes the XC functional list as a parameter instead of reading the engine's copy of it. The constructor calls it before the engine object exists, on the same list it then stores.
- Potential.SplitGammaProduct: states the product of the two halves, their lower bound 1 and the result. It does not state which factor went into which half, or that f1 stays below R^l times the largest factor (the overflow protection). Long double rounding is not modelled.
- Potential.Potential.constructor: takes the plane-wave coefficient buffer of the effective potential as a parameter, because it belongs to the context's `veff` function. The final `update()` call is made by `Create`. The work before the fields are stored is in `AllocateTables`.
- Potential.Potential.Generate: in pseudopotential mode `generate_d_mtrx()` (line 333) rewrites the D-matrix blocks on every pass. Its values come from integrals that are not modelled, so the method may change those blocks (they are in its frame) but does not state their new contents; the shapes are kept.
- Potential.Create: the thrown exception for an uninitialised context becomes a `Failure` result.
- Atom.Atom.constructor: the atom-type pointer and the symmetry class are not modelled as objects. The radial functions and spherical integrals of the symmetry class enter through `RadialKernels`.
- NonLocalOperator.UOperator.constructor: requires every Hubbard atom's block to fit in the matrix. The source assumes this without checking, and an out-of-range offset would write outside the array.
