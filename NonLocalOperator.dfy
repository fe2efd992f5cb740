/** The packed non-local operators of the pseudopotential Hamiltonian: the
    read-only accessors of the D / Q operator, and the Hubbard U operator,
    whose constructor zeroes a dense nhwf x nhwf x (num_mag_dims + 1)
    matrix and copies each Hubbard atom's local occupation block onto its
    diagonal position. */
module NonLocalOperator {
  import opened Common

  // ---------------------------------------------------------------------
  // Packed layout of the D / Q operator
  // ---------------------------------------------------------------------

  /** Offsets of the per-atom nbf x nbf blocks in the packed buffer: each
      atom's block starts where the previous one ends. */
  function PackedOffsets(nbf: seq<nat>): (offsets: seq<nat>)
    ensures |offsets| == |nbf|
    ensures |nbf| > 0 ==> offsets[0] == 0
    ensures forall ia :: 0 < ia < |nbf| ==> offsets[ia] == offsets[ia - 1] + nbf[ia - 1] * nbf[ia - 1]
    decreases |nbf|
  {
    if |nbf| == 0 then []
    else
      var init := PackedOffsets(nbf[..|nbf| - 1]);
      var last := |nbf| - 1;
      init + [if last == 0 then 0 else init[last - 1] + nbf[last - 1] * nbf[last - 1]]
  }

  /** Total size of the packed buffer: the sum of the per-atom block sizes. */
  function PackedSize(nbf: seq<nat>): nat
    decreases |nbf|
  {
    if |nbf| == 0 then 0 else PackedSize(nbf[..|nbf| - 1]) + nbf[|nbf| - 1] * nbf[|nbf| - 1]
  }

  /** Position of element (xi1, xi2) of atom ia's block: column-major inside
      the block, after the blocks of the atoms before it. */
  function PackedIndex(offsets: seq<nat>, nbf: seq<nat>, ia: nat, xi1: nat, xi2: nat): nat
    requires ia < |offsets| && ia < |nbf|
  {
    offsets[ia] + xi2 * nbf[ia] + xi1
  }

  /** Multiplication by a natural number keeps the order. */
  lemma MulMonotone(a: nat, b: nat, n: nat)
    requires a <= b
    ensures a * n <= b * n
  {
  }

  /** Inside a block of size n x n, the column-major position is below n*n. */
  lemma ColumnMajorBound(n: nat, xi1: nat, xi2: nat)
    requires xi1 < n && xi2 < n
    ensures xi2 * n + xi1 < n * n
  {
    MulMonotone(xi2 + 1, n, n);
    assert (xi2 + 1) * n == xi2 * n + n;
  }

  /** Every atom's block ends where the packed buffer of all atoms up to and
      including it ends. */
  lemma {:induction false} BlockEndsWithinPrefix(nbf: seq<nat>, ia: nat)
    requires ia < |nbf|
    ensures PackedOffsets(nbf)[ia] + nbf[ia] * nbf[ia] == PackedSize(nbf[..ia + 1])
    decreases ia
  {
    var offsets := PackedOffsets(nbf);
    assert nbf[..ia + 1][..ia] == nbf[..ia];
    if ia > 0 {
      BlockEndsWithinPrefix(nbf, ia - 1);
      assert nbf[..ia][..ia] == nbf[..ia];
    }
  }

  /** The packed size of a prefix never exceeds that of the whole. */
  lemma {:induction false} PackedSizePrefix(nbf: seq<nat>, k: nat)
    requires k <= |nbf|
    ensures PackedSize(nbf[..k]) <= PackedSize(nbf)
    decreases |nbf| - k
  {
    if k < |nbf| {
      var m := |nbf| - 1;
      assert nbf[..m][..k] == nbf[..k];
      PackedSizePrefix(nbf[..m], k);
      assert nbf == nbf[..m] + [nbf[m]];
    } else {
      assert nbf[..k] == nbf;
    }
  }

  /** Every element of every block lies inside the packed buffer. */
  lemma PackedIndexInBounds(nbf: seq<nat>, ia: nat, xi1: nat, xi2: nat)
    requires ia < |nbf| && xi1 < nbf[ia] && xi2 < nbf[ia]
    ensures PackedIndex(PackedOffsets(nbf), nbf, ia, xi1, xi2) < PackedSize(nbf)
  {
    ColumnMajorBound(nbf[ia], xi1, xi2);
    BlockEndsWithinPrefix(nbf, ia);
    PackedSizePrefix(nbf, ia + 1);
  }

  /** The block of a later atom starts after the block of an earlier one
      ends. */
  lemma {:induction false} LaterBlockStartsAfter(nbf: seq<nat>, ia: nat, ib: nat)
    requires ia < ib < |nbf|
    ensures PackedOffsets(nbf)[ia] + nbf[ia] * nbf[ia] <= PackedOffsets(nbf)[ib]
    decreases ib - ia
  {
    if ib > ia + 1 {
      LaterBlockStartsAfter(nbf, ia, ib - 1);
    }
  }

  /** Element (xi1, xi2) of atom ia's block lies inside that block, for
      any table of block offsets. */
  lemma WithinBlock(offsets: seq<nat>, nbf: seq<nat>, ia: nat, xi1: nat, xi2: nat)
    requires ia < |offsets| && ia < |nbf| && xi1 < nbf[ia] && xi2 < nbf[ia]
    ensures offsets[ia] <= PackedIndex(offsets, nbf, ia, xi1, xi2) < offsets[ia] + nbf[ia] * nbf[ia]
  {
    ColumnMajorBound(nbf[ia], xi1, xi2);
  }

  /** Inside one n x n block, distinct (xi1, xi2) have distinct
      column-major positions. */
  lemma ColumnMajorInjective(n: nat, xi1: nat, xi2: nat, yi1: nat, yi2: nat)
    requires xi1 < n && xi2 < n && yi1 < n && yi2 < n && (xi1, xi2) != (yi1, yi2)
    ensures xi2 * n + xi1 != yi2 * n + yi1
  {
    if xi2 < yi2 {
      ColumnMajorOrder(n, xi1, xi2, yi1, yi2);
    } else if yi2 < xi2 {
      ColumnMajorOrder(n, yi1, yi2, xi1, xi2);
    }
  }

  /** Distinct (atom, xi1, xi2) address distinct buffer entries: no two
      blocks overlap, and inside a block the column-major order is one to
      one. */
  lemma PackedIndexInjective(nbf: seq<nat>, ia: nat, xi1: nat, xi2: nat, ib: nat, yi1: nat, yi2: nat)
    requires ia < |nbf| && xi1 < nbf[ia] && xi2 < nbf[ia]
    requires ib < |nbf| && yi1 < nbf[ib] && yi2 < nbf[ib]
    requires (ia, xi1, xi2) != (ib, yi1, yi2)
    ensures PackedIndex(PackedOffsets(nbf), nbf, ia, xi1, xi2) != PackedIndex(PackedOffsets(nbf), nbf, ib, yi1, yi2)
  {
    var offsets := PackedOffsets(nbf);
    WithinBlock(offsets, nbf, ia, xi1, xi2);
    WithinBlock(offsets, nbf, ib, yi1, yi2);
    if ia < ib {
      LaterBlockStartsAfter(nbf, ia, ib);
    } else if ib < ia {
      LaterBlockStartsAfter(nbf, ib, ia);
    } else {
      ColumnMajorInjective(nbf[ia], xi1, xi2, yi1, yi2);
    }
  }

  /** Column-major positions of an earlier column come first. */
  lemma ColumnMajorOrder(n: nat, xi1: nat, xi2: nat, yi1: nat, yi2: nat)
    requires xi1 < n && xi2 < yi2
    ensures xi2 * n + xi1 < yi2 * n + yi1
  {
    MulMonotone(xi2 + 1, yi2, n);
    assert (xi2 + 1) * n == xi2 * n + n;
  }

  /** The D or Q operator: per-atom nbf x nbf blocks packed into one buffer
      with one column per spin block, the spin-diagonal flag and the null
      flag. The buffer is filled by the operator's initialisation, which is
      not part of this model. */
  class Operator {
    const nbf: seq<nat>
    const packedMtrxOffset: seq<nat>
    const packedMtrxSize: nat
    /** op(packed index, spin block) */
    var op: array2<real>
    var isNull: bool
    /** True if the operator is diagonal in spin. */
    var isDiag: bool

    /** The packed layout: offsets are the running sums of the block sizes,
        the buffer holds all blocks. */
    predicate Valid()
      reads this
    {
      && packedMtrxOffset == PackedOffsets(nbf)
      && packedMtrxSize == PackedSize(nbf)
      && op.Length0 == packedMtrxSize
    }

    /** A fresh operator for atoms with the given basis sizes and spin
        blocks: not null, diagonal in spin. */
    constructor (basisSizes: seq<nat>, numSpinBlocks: nat)
      ensures nbf == basisSizes && Valid()
      ensures op.Length1 == numSpinBlocks
      ensures !isNull && isDiag
    {
      nbf := basisSizes;
      packedMtrxOffset := PackedOffsets(basisSizes);
      packedMtrxSize := PackedSize(basisSizes);
      op := new real[PackedSize(basisSizes), numSpinBlocks];
      isNull, isDiag := false, true;
    }

    /** Element (xi1, xi2) of atom ia's block in spin block ispn. */
    function ValueSpin(xi1: nat, xi2: nat, ispn: nat, ia: nat): (r: real)
      reads this, op
      requires Valid() && ia < |nbf| && xi1 < nbf[ia] && xi2 < nbf[ia] && ispn < op.Length1
      ensures PackedIndex(packedMtrxOffset, nbf, ia, xi1, xi2) < op.Length0
      ensures r == op[PackedIndex(packedMtrxOffset, nbf, ia, xi1, xi2), ispn]
    {
      PackedIndexInBounds(nbf, ia, xi1, xi2);
      op[PackedIndex(packedMtrxOffset, nbf, ia, xi1, xi2), ispn]
    }

    /** The spin-less overload reads spin block 0. */
    function Value(xi1: nat, xi2: nat, ia: nat): (r: real)
      reads this, op
      requires Valid() && ia < |nbf| && xi1 < nbf[ia] && xi2 < nbf[ia] && 0 < op.Length1
      ensures PackedIndex(packedMtrxOffset, nbf, ia, xi1, xi2) < op.Length0
      ensures r == op[PackedIndex(packedMtrxOffset, nbf, ia, xi1, xi2), 0]
    {
      ValueSpin(xi1, xi2, 0, ia)
    }

    function IsDiag(): (r: bool)
      reads this
      ensures r <==> isDiag
    {
      isDiag
    }
  }

  // ---------------------------------------------------------------------
  // The Hubbard U operator
  // ---------------------------------------------------------------------

  /** What the U operator reads of an atom: whether its type carries a
      Hubbard correction, and the number nb of its Hubbard orbitals. */
  datatype HubbardAtom = HubbardAtom(hubbardCorrection: bool, nb: nat)

  /** (x, y) lies in the nb x nb diagonal block starting at off. */
  predicate InBlock(off: int, nb: nat, x: int, y: int) {
    off <= x < off + nb && off <= y < off + nb
  }

  /** Every Hubbard atom's block fits in the nhwf x nhwf matrix. */
  predicate BlocksFit(atoms: seq<HubbardAtom>, offset: seq<int>, nhwf: nat)
    requires |offset| == |atoms|
  {
    forall ia :: 0 <= ia < |atoms| && atoms[ia].hubbardCorrection ==>
      0 <= offset[ia] && offset[ia] + atoms[ia].nb <= nhwf
  }

  /** The blocks of distinct Hubbard atoms do not overlap. */
  predicate BlocksDisjoint(atoms: seq<HubbardAtom>, offset: seq<int>)
    requires |offset| == |atoms|
  {
    forall ia, ib :: 0 <= ia < ib < |atoms| && atoms[ia].hubbardCorrection && atoms[ib].hubbardCorrection ==>
      offset[ia] + atoms[ia].nb <= offset[ib] || offset[ib] + atoms[ib].nb <= offset[ia]
  }

  /** Entry (x, y, j) of the U matrix after the blocks of the first k atoms
      have been copied over the zeroed matrix: the last atom whose block
      holds (x, y) wins, and an entry no block holds is zero. */
  function UAfter(atoms: seq<HubbardAtom>, offset: seq<int>, local: (nat, nat, nat, nat) -> Complex,
                  k: nat, x: nat, y: nat, j: nat): Complex
    requires |offset| == |atoms| && k <= |atoms|
  {
    if k == 0 then Zero
    else if atoms[k - 1].hubbardCorrection && InBlock(offset[k - 1], atoms[k - 1].nb, x, y)
    then local(k - 1, x - offset[k - 1], y - offset[k - 1], j)
    else UAfter(atoms, offset, local, k - 1, x, y, j)
  }

  /** With disjoint blocks, every Hubbard atom's block holds exactly that
      atom's local matrix once all atoms are copied. */
  lemma {:induction false} BlockCopied(atoms: seq<HubbardAtom>, offset: seq<int>, local: (nat, nat, nat, nat) -> Complex,
                                       k: nat, ia: nat, m1: nat, m2: nat, j: nat)
    requires |offset| == |atoms| && k <= |atoms| && BlocksDisjoint(atoms, offset)
    requires ia < k && atoms[ia].hubbardCorrection && 0 <= offset[ia] && m1 < atoms[ia].nb && m2 < atoms[ia].nb
    ensures UAfter(atoms, offset, local, k, offset[ia] + m1, offset[ia] + m2, j) == local(ia, m1, m2, j)
  {
    if ia < k - 1 {
      var kk := k - 1;
      BlockCopied(atoms, offset, local, kk, ia, m1, m2, j);
      assert !(atoms[kk].hubbardCorrection && InBlock(offset[kk], atoms[kk].nb, offset[ia] + m1, offset[ia] + m2));
    }
  }

  /** An entry outside every Hubbard atom's block stays zero: blocks of
      different atoms are never coupled. */
  lemma {:induction false} OutsideBlocksZero(atoms: seq<HubbardAtom>, offset: seq<int>, local: (nat, nat, nat, nat) -> Complex,
                                             k: nat, x: nat, y: nat, j: nat)
    requires |offset| == |atoms| && k <= |atoms|
    requires forall ia :: 0 <= ia < k && atoms[ia].hubbardCorrection ==> !InBlock(offset[ia], atoms[ia].nb, x, y)
    ensures UAfter(atoms, offset, local, k, x, y, j) == Zero
  {
    if k > 0 {
      OutsideBlocksZero(atoms, offset, local, k - 1, x, y, j);
    }
  }

  /** Dropping the Hubbard correction from an atom's type removes exactly
      that atom's block: the matrix is then the one built without that atom,
      so an atom without a correction leaves the matrix unchanged. */
  lemma {:induction false} NonHubbardAtomIgnored(atoms: seq<HubbardAtom>, offset: seq<int>, local: (nat, nat, nat, nat) -> Complex,
                                                 k: nat, ia: nat, x: nat, y: nat, j: nat)
    requires |offset| == |atoms| && k <= |atoms| && ia < |atoms| && !atoms[ia].hubbardCorrection
    ensures UAfter(atoms, offset, local, k, x, y, j)
            == UAfter(atoms[ia := HubbardAtom(false, 0)], offset, local, k, x, y, j)
  {
    if k > 0 {
      NonHubbardAtomIgnored(atoms, offset, local, k - 1, ia, x, y, j);
    }
  }

  /** The Hubbard U operator: nhwf Hubbard orbitals, the offset of each
      atom's orbitals, and the dense U matrix with one slice per magnetic
      component. */
  class UOperator {
    const nhwf: nat
    const offset: seq<int>
    var um: array3<Complex>

    /** Zeroes an nhwf x nhwf x (numMagDims + 1) matrix and copies, for
        every atom with a Hubbard correction, the local matrix um1(ia) to
        the diagonal block at the atom's offset. */
    constructor (hubbardWf: (nat, seq<int>), numMagDims: nat, atoms: seq<HubbardAtom>,
                 local: (nat, nat, nat, nat) -> Complex)
      requires |hubbardWf.1| == |atoms| && BlocksFit(atoms, hubbardWf.1, hubbardWf.0)
      ensures nhwf == hubbardWf.0 && offset == hubbardWf.1
      ensures fresh(um)
      ensures um.Length0 == nhwf && um.Length1 == nhwf && um.Length2 == numMagDims + 1
      ensures forall x, y, j :: 0 <= x < nhwf && 0 <= y < nhwf && 0 <= j <= numMagDims ==>
        um[x, y, j] == UAfter(atoms, offset, local, |atoms|, x, y, j)
    {
      nhwf := hubbardWf.0;
      offset := hubbardWf.1;
      var m := new Complex[hubbardWf.0, hubbardWf.0, numMagDims + 1];
      forall x, y, j | 0 <= x < m.Length0 && 0 <= y < m.Length1 && 0 <= j < m.Length2 {
        m[x, y, j] := Zero;
      }
      var ia := 0;
      while ia < |atoms|
        invariant 0 <= ia <= |atoms|
        invariant forall x, y, j :: 0 <= x < m.Length0 && 0 <= y < m.Length1 && 0 <= j < m.Length2 ==>
          m[x, y, j] == UAfter(atoms, hubbardWf.1, local, ia, x, y, j)
      {
        if atoms[ia].hubbardCorrection {
          CopyBlock(m, hubbardWf.1[ia], atoms[ia].nb, ia, local);
        }
        ia := ia + 1;
      }
      um := m;
    }

    function Nhwf(): (r: nat)
      ensures r == nhwf
    {
      nhwf
    }

    function Offset(ia: nat): (r: int)
      requires ia < |offset|
      ensures r == offset[ia]
    {
      offset[ia]
    }

    function Get(m1: nat, m2: nat, j: nat): (r: Complex)
      reads this, um
      requires m1 < um.Length0 && m2 < um.Length1 && j < um.Length2
      ensures r == um[m1, m2, j]
    {
      um[m1, m2, j]
    }
  }

  /** One Hubbard atom's copy: for each magnetic component j and each
      (m1, m2) of its nb x nb block, entry (off + m1, off + m2, j) takes the
      atom's local value; every other entry keeps its value. */
  method CopyBlock(m: array3<Complex>, off: int, nb: nat, ia: nat, local: (nat, nat, nat, nat) -> Complex)
    requires 0 <= off && off + nb <= m.Length0 && off + nb <= m.Length1
    modifies m
    ensures forall x, y, j :: 0 <= x < m.Length0 && 0 <= y < m.Length1 && 0 <= j < m.Length2 ==>
      m[x, y, j] == (if InBlock(off, nb, x, y) then local(ia, x - off, y - off, j) else old(m[x, y, j]))
  {
    var j := 0;
    while j < m.Length2
      invariant 0 <= j <= m.Length2
      invariant forall x, y, j' :: 0 <= x < m.Length0 && 0 <= y < m.Length1 && 0 <= j' < m.Length2 ==>
        m[x, y, j'] == (if InBlock(off, nb, x, y) && j' < j then local(ia, x - off, y - off, j') else old(m[x, y, j']))
    {
      var m1 := 0;
      while m1 < nb
        invariant 0 <= m1 <= nb
        invariant forall x, y, j' :: 0 <= x < m.Length0 && 0 <= y < m.Length1 && 0 <= j' < m.Length2 ==>
          m[x, y, j'] == (if InBlock(off, nb, x, y) && (j' < j || (j' == j && x - off < m1))
                          then local(ia, x - off, y - off, j') else old(m[x, y, j']))
      {
        var m2 := 0;
        while m2 < nb
          invariant 0 <= m2 <= nb
          invariant forall x, y, j' :: 0 <= x < m.Length0 && 0 <= y < m.Length1 && 0 <= j' < m.Length2 ==>
            m[x, y, j'] == (if InBlock(off, nb, x, y) && (j' < j || (j' == j && (x - off < m1 || (x - off == m1 && y - off < m2))))
                            then local(ia, x - off, y - off, j') else old(m[x, y, j']))
        {
          m[off + m1, off + m2, j] := local(ia, m1, m2, j);
          m2 := m2 + 1;
        }
        m1 := m1 + 1;
      }
      j := j + 1;
    }
  }
}
