/** Shared vocabulary of the potential / Hamiltonian bookkeeping model:
    complex numbers with exact real parts, the optional and result wrappers,
    integer powers of reals, the (l, m) -> lm packing of spherical harmonics,
    the exact period-4 cycle of i^l, and the block distribution of an index
    range over the ranks of a communicator. */
module Common {

  datatype Option<+T> = None | Some(value: T)

  datatype Result<+T, +E> = Success(value: T) | Failure(error: E)

  function Min(a: int, b: int): int { if a <= b then a else b }

  function Max(a: int, b: int): int { if a <= b then b else a }

  // ---------------------------------------------------------------------
  // Complex numbers (std::complex<double>, with the doubles made exact)
  // ---------------------------------------------------------------------

  datatype Complex = Complex(re: real, im: real)

  const Zero: Complex := Complex(0.0, 0.0)
  const One: Complex := Complex(1.0, 0.0)
  const ImagUnit: Complex := Complex(0.0, 1.0)

  function Mul(z: Complex, w: Complex): Complex {
    Complex(z.re * w.re - z.im * w.im, z.re * w.im + z.im * w.re)
  }

  /** Multiplication by the imaginary unit, i * z. */
  function TimesI(z: Complex): Complex {
    Complex(-z.im, z.re)
  }

  lemma TimesIIsMul(z: Complex)
    ensures TimesI(z) == Mul(ImagUnit, z)
  {
  }

  function Sub(z: Complex, w: Complex): Complex {
    Complex(z.re - w.re, z.im - w.im)
  }

  /** z^n by repeated multiplication: the meaning of std::pow(z, n) for an
      integer exponent. */
  function CPow(z: Complex, n: nat): Complex {
    if n == 0 then One else Mul(z, CPow(z, n - 1))
  }

  /** i^l as the exact period-4 cycle 1, i, -1, -i. */
  function IPow(l: nat): Complex {
    match l % 4
    case 0 => One
    case 1 => Complex(0.0, 1.0)
    case 2 => Complex(-1.0, 0.0)
    case _ => Complex(0.0, -1.0)
  }

  /** One more factor of i advances the cycle by one step. */
  lemma IPowStep(k: nat)
    ensures IPow(k + 1) == TimesI(IPow(k))
  {
    assert k == 4 * (k / 4) + k % 4;
  }

  /** The period-4 table is exactly the l-th power of the imaginary unit. */
  lemma {:induction false} IPowIsPower(l: nat)
    ensures IPow(l) == CPow(ImagUnit, l)
  {
    if l > 0 {
      var k := l - 1;
      calc {
        CPow(ImagUnit, l);
        Mul(ImagUnit, CPow(ImagUnit, k));
        { IPowIsPower(k); }
        Mul(ImagUnit, IPow(k));
        { TimesIIsMul(IPow(k)); }
        TimesI(IPow(k));
        { IPowStep(k); }
        IPow(l);
      }
    }
  }

  /** i^(l+4) == i^l and i^(l+2) == -i^l. */
  lemma IPowPeriod(l: nat)
    ensures IPow(l + 4) == IPow(l)
    ensures IPow(l + 2) == Complex(-IPow(l).re, -IPow(l).im)
  {
    assert (l + 4) % 4 == l % 4;
  }

  // ---------------------------------------------------------------------
  // Integer powers of reals (std::pow with an integer exponent)
  // ---------------------------------------------------------------------

  function RPow(x: real, n: nat): real {
    if n == 0 then 1.0 else x * RPow(x, n - 1)
  }

  lemma {:induction false} RPowPositive(x: real, n: nat)
    requires x > 0.0
    ensures RPow(x, n) > 0.0
  {
    if n > 0 {
      RPowPositive(x, n - 1);
    }
  }

  /** For 0 < f < 1 the powers f^k are positive, at most 1 and strictly
      decreasing: the geometric decay. */
  lemma {:induction false} RPowDecays(f: real, k: nat)
    requires 0.0 < f < 1.0
    ensures 0.0 < RPow(f, k + 1) < RPow(f, k) <= 1.0
  {
    if k == 0 {
      assert RPow(f, 1) == f;
    } else {
      RPowDecays(f, k - 1);
    }
  }

  // ---------------------------------------------------------------------
  // Spherical-harmonic index packing: lm = l*l + (m + l), -l <= m <= l
  // ---------------------------------------------------------------------

  /** Number of (l, m) channels up to and including lmax: each l adds its
      2l + 1 values of m. */
  function Lmmax(lmax: int): nat
    requires lmax >= -1
    decreases lmax + 1
  {
    if lmax == -1 then 0 else Lmmax(lmax - 1) + 2 * lmax + 1
  }

  /** The channel count is the square (lmax + 1)^2. */
  lemma {:induction false} LmmaxIsSquare(lmax: int)
    requires lmax >= -1
    ensures Lmmax(lmax) == (lmax + 1) * (lmax + 1)
    decreases lmax + 1
  {
    if lmax >= 0 {
      LmmaxIsSquare(lmax - 1);
    }
  }

  lemma {:induction false} LmmaxMonotone(a: int, b: int)
    requires -1 <= a <= b
    ensures Lmmax(a) <= Lmmax(b)
    decreases b - a
  {
    if a < b {
      LmmaxMonotone(a, b - 1);
    }
  }

  /** The orbital quantum number l that owns the packed index lm. */
  function LOf(lm: nat): (l: nat)
    ensures l * l <= lm < (l + 1) * (l + 1)
  {
    if lm == 0 then 0
    else
      var p := LOf(lm - 1);
      if lm == (p + 1) * (p + 1) then p + 1 else p
  }

  lemma SquareMonotone(a: nat, b: nat)
    requires a < b
    ensures a * a < b * b
  {
    assert a * a <= a * b;
    assert a * b < b * b;
  }

  /** Squares of naturals order their roots. */
  lemma SquareOrdersRoots(a: nat, b: nat)
    requires a * a < b * b
    ensures a < b
  {
    if b <= a {
      assert false;
    }
  }

  /** l is the only orbital number whose block [l*l, (l+1)^2) contains lm. */
  lemma LOfUnique(lm: nat, l: nat)
    requires l * l <= lm < (l + 1) * (l + 1)
    ensures LOf(lm) == l
  {
    var k := LOf(lm);
    if k < l {
      SquareMonotone(k + 1, l + 1);
      if k + 1 < l { SquareMonotone(k + 1, l); }
    } else if k > l {
      SquareMonotone(l + 1, k + 1);
      if l + 1 < k { SquareMonotone(l + 1, k); }
    }
  }

  /** The channels of l are the indices Lmmax(l - 1) .. Lmmax(l) - 1. */
  lemma LOfInBlock(lm: nat, l: nat)
    requires Lmmax(l - 1) <= lm < Lmmax(l)
    ensures LOf(lm) == l
  {
    LmmaxIsSquare(l - 1);
    LmmaxIsSquare(l);
    LOfUnique(lm, l);
  }

  /** The l_by_lm table for channels up to lmax. */
  function LByLm(lmax: int): (t: seq<nat>)
    requires lmax >= -1
    ensures |t| == Lmmax(lmax)
    ensures forall lm :: 0 <= lm < |t| ==> t[lm] <= lmax && t[lm] * t[lm] <= lm < (t[lm] + 1) * (t[lm] + 1)
  {
    LmmaxIsSquare(lmax);
    var t := seq(Lmmax(lmax), lm requires 0 <= lm => LOf(lm));
    assert forall lm :: 0 <= lm < |t| ==> t[lm] <= lmax by {
      forall lm | 0 <= lm < |t| ensures t[lm] <= lmax {
        SquareOrdersRoots(t[lm], lmax + 1);
      }
    }
    t
  }

  // ---------------------------------------------------------------------
  // Block distribution of [0, n) over p ranks (splindex<block>)
  // ---------------------------------------------------------------------

  function BlockSize(n: nat, p: nat): nat
    requires p > 0
  {
    (n + p - 1) / p
  }

  /** First global index of rank r's block; rank r owns
      [BlockBegin(n, p, r), BlockBegin(n, p, r + 1)). */
  function BlockBegin(n: nat, p: nat, r: nat): nat
    requires p > 0
  {
    Min(n, r * BlockSize(n, p))
  }

  lemma BlockBeginMonotone(n: nat, p: nat, r: nat, s: nat)
    requires p > 0 && r <= s
    ensures BlockBegin(n, p, r) <= BlockBegin(n, p, s)
  {
    assert r * BlockSize(n, p) <= s * BlockSize(n, p);
  }

  /** The blocks start at 0 and the last one ends at n. */
  lemma BlockEnds(n: nat, p: nat)
    requires p > 0
    ensures BlockBegin(n, p, 0) == 0
    ensures BlockBegin(n, p, p) == n
  {
    var b := BlockSize(n, p);
    assert (n + p - 1) == p * b + (n + p - 1) % p;
    assert p * b + p - 1 >= n + p - 1;
    assert p * b >= n;
  }

  /** A split of [0, n) into contiguous blocks, one per rank: rank r owns
      [bounds[r], bounds[r + 1]). */
  predicate IsBlockPartition(bounds: seq<nat>, n: nat) {
    && |bounds| >= 2
    && bounds[0] == 0
    && bounds[|bounds| - 1] == n
    && forall r :: 0 <= r < |bounds| - 1 ==> bounds[r] <= bounds[r + 1]
  }

  /** Every block of a partition of [0, n) lies inside [0, n]. */
  lemma {:induction false} PartitionBlockInRange(bounds: seq<nat>, n: nat, r: nat)
    requires IsBlockPartition(bounds, n) && r < |bounds| - 1
    ensures bounds[r] <= bounds[r + 1] <= n
    decreases |bounds| - r
  {
    if r + 1 < |bounds| - 1 {
      PartitionBlockInRange(bounds, n, r + 1);
    }
  }

  /** The block boundaries of p ranks; they partition [0, n), and one rank
      owns the whole range. */
  function BlockBounds(n: nat, p: nat): (bounds: seq<nat>)
    requires p > 0
    ensures |bounds| == p + 1
    ensures forall r :: 0 <= r <= p ==> bounds[r] == BlockBegin(n, p, r)
    ensures IsBlockPartition(bounds, n)
    ensures p == 1 ==> bounds == [0, n]
  {
    BlockEnds(n, p);
    var bounds := seq(p + 1, (r: int) requires 0 <= r => BlockBegin(n, p, r));
    forall r | 0 <= r < p
      ensures bounds[r] <= bounds[r + 1]
    {
      BlockBeginMonotone(n, p, r, r + 1);
    }
    bounds
  }

  /** Sum over ranks r < k of a per-rank value: the reduction of a
      distributed table onto the root. */
  function SumRanks(k: nat, f: nat -> real): real {
    if k == 0 then 0.0 else SumRanks(k - 1, f) + f(k - 1)
  }

  /** If each rank contributes v exactly for the indices of its own block
      and 0 elsewhere, the sum over the first k ranks is v for the indices
      below the end of block k - 1 and 0 above: the blocks partition the
      range. */
  lemma {:induction false} SumOverBlocks(bounds: seq<nat>, k: nat, lm: nat, v: real, f: nat -> real)
    requires k < |bounds| && bounds[0] == 0
    requires forall r :: 0 <= r < k ==> bounds[r] <= bounds[r + 1]
    requires forall r :: 0 <= r < k ==> f(r) == (if bounds[r] <= lm < bounds[r + 1] then v else 0.0)
    ensures SumRanks(k, f) == (if lm < bounds[k] then v else 0.0)
  {
    if k > 0 {
      SumOverBlocks(bounds, k - 1, lm, v, f);
    }
  }
}
