/** Image patches as columns of a virtual matrix: where a position of a patch lies in the input, and the
    coefficient it holds. */
module SpatialPatches {
  import opened Modular

  // Bit patterns of scalars; only zero is special.
  type Scalar = int

  const ZERO: Scalar := 0

  /** Patch size, strides and padding, and the input in depth-row-column-batch order. */
  datatype Mapper = Mapper(
    patchDepth: nat, patchRows: nat, patchCols: nat,
    inputRows: nat, inputCols: nat,
    rowStrides: nat, colStrides: nat,
    inRowStrides: nat, inColStrides: nat,
    rowInflate: nat, colInflate: nat,
    rowPaddingTop: int, colPaddingLeft: int,
    outputRows: nat, numPatches: nat,
    batched: bool,
    input: seq<Scalar>)
  {
    function ColInputStride(): nat { patchDepth * inputRows }

    function ImageSize(): nat { ColInputStride() * inputCols }

    function PatchColStride(): nat { patchRows * patchDepth }

    function PatchSize(): nat { PatchColStride() * patchCols }

    ghost predicate Valid() {
      && patchDepth > 0 && patchRows > 0 && patchCols > 0
      && rowInflate > 0 && colInflate > 0 && outputRows > 0 && numPatches > 0
    }

    predicate NonStandard() {
      inRowStrides != 1 || inColStrides != 1 || rowInflate != 1 || colInflate != 1
    }
  }

  /** The input position of a patch's first element: row and column may lie in the padding. */
  datatype Base = Base(row: int, col: int, other: int)

  /** The base belongs to an image of the input. */
  ghost predicate BaseFits(m: Mapper, b: Base) {
    0 <= b.other && b.other + m.ImageSize() <= |m.input|
  }

  /** Index `k` of the input lies in the patch's own image. */
  predicate InImage(m: Mapper, b: Base, k: int) { b.other <= k < b.other + m.ImageSize() }

  /** The bases of patches, counted through outputs and images. */
  function BaseIndices(m: Mapper, patchIndex: nat): Base
    requires m.Valid()
  {
    var other := if m.batched then patchIndex / m.numPatches else 0;
    var patch := patchIndex - other * m.numPatches;
    var col := patch / m.outputRows;
    var row := patch - col * m.outputRows;
    Base(row * m.rowStrides - m.rowPaddingTop, col * m.colStrides - m.colPaddingLeft, other * m.ImageSize())
  }

  /** A patch index below the number of patches of all images has a base in the input. */
  lemma BaseIndicesFit(m: Mapper, patchIndex: nat, images: nat)
    requires m.Valid() && |m.input| == images * m.ImageSize() && images > 0
    requires m.batched ==> patchIndex < images * m.numPatches
    ensures BaseFits(m, BaseIndices(m, patchIndex))
  {
    var other := if m.batched then patchIndex / m.numPatches else 0;
    if m.batched {
      assert patchIndex == other * m.numPatches + patchIndex % m.numPatches;
      if other >= images {
        MulMono(images, other, m.numPatches);
      }
    }
    MulMono(other + 1, images, m.ImageSize());
    assert (other + 1) * m.ImageSize() == other * m.ImageSize() + m.ImageSize();
  }

  function Orig(input: int, inflate: nat): int
    requires inflate > 0
  {
    if inflate == 1 then input else if input >= 0 then input / inflate else 0
  }

  lemma InBounds(m: Mapper, b: Base, depth: int, row: int, col: int)
    requires m.Valid() && BaseFits(m, b) && 0 <= depth < m.patchDepth && 0 <= row < m.inputRows
    requires 0 <= col < m.inputCols
    ensures InImage(m, b, depth + row * m.patchDepth + col * m.ColInputStride() + b.other)
  {
    MulMono(row + 1, m.inputRows, m.patchDepth);
    MulMono(col + 1, m.inputCols, m.ColInputStride());
    assert (row + 1) * m.patchDepth == row * m.patchDepth + m.patchDepth;
    assert (col + 1) * m.ColInputStride() == col * m.ColInputStride() + m.ColInputStride();
    MulSign(row, m.patchDepth);
    if m.ColInputStride() > 0 {
      MulSign(col, m.ColInputStride());
    }
    assert m.inputRows * m.patchDepth == m.ColInputStride();
    assert m.inputCols * m.ColInputStride() == m.ImageSize();
  }

  /** The coefficient at offset `patchId` of the patch: zero in the padding and in the gaps of an
      inflated input, an element of the input otherwise. */
  function LoadCoeff(m: Mapper, patchId: nat, b: Base): Scalar
    requires m.Valid() && BaseFits(m, b)
  {
    var patchOffset := patchId / m.patchDepth;
    var colOffset := patchOffset / m.patchRows;
    var inputCol := b.col + colOffset * m.inColStrides;
    var origCol := Orig(inputCol, m.colInflate);
    var rowOffset := patchOffset - colOffset * m.patchRows;
    var inputRow := b.row + rowOffset * m.inRowStrides;
    var origRow := Orig(inputRow, m.rowInflate);
    if origCol < 0 || origRow < 0 || origCol >= m.inputCols || origRow >= m.inputRows
       || inputCol != origCol * m.colInflate || inputRow != origRow * m.rowInflate then ZERO
    else
      var depth := patchId - patchOffset * m.patchDepth;
      InBounds(m, b, depth, origRow, origCol);
      m.input[depth + origRow * m.patchDepth + origCol * m.ColInputStride() + b.other]
  }

  /** The same, without strides and inflation. */
  function LoadCoeffStandard(m: Mapper, patchId: nat, b: Base): Scalar
    requires m.Valid() && BaseFits(m, b)
  {
    var patchOffset := patchId / m.patchDepth;
    var colOffset := patchOffset / m.patchRows;
    var rowOffset := patchOffset - colOffset * m.patchRows;
    var inputCol, inputRow := b.col + colOffset, b.row + rowOffset;
    if inputCol < 0 || inputCol >= m.inputCols || inputRow < 0 || inputRow >= m.inputRows then ZERO
    else
      var depth := patchId - patchOffset * m.patchDepth;
      InBounds(m, b, depth, inputRow, inputCol);
      m.input[depth + inputRow * m.patchDepth + inputCol * m.ColInputStride() + b.other]
  }

  lemma StandardIsCoeff(m: Mapper, patchId: nat, b: Base)
    requires m.Valid() && BaseFits(m, b) && !m.NonStandard()
    ensures LoadCoeffStandard(m, patchId, b) == LoadCoeff(m, patchId, b)
  {
  }

  // ----- Positions in a patch -------------------------------------------------------------------------

  function OffsetOf(m: Mapper, id: nat): nat requires m.Valid() { id / m.patchDepth }

  function ColOf(m: Mapper, id: nat): nat requires m.Valid() { OffsetOf(m, id) / m.patchRows }

  function RowOf(m: Mapper, id: nat): int requires m.Valid() { OffsetOf(m, id) - ColOf(m, id) * m.patchRows }

  lemma DivMono(x: nat, y: nat, n: nat)
    requires x <= y && n > 0
    ensures x / n <= y / n
  {
    var a, b := x / n, y / n;
    assert x == a * n + x % n && y == b * n + y % n;
    assert (b + 1) * n == b * n + n;
    if a > b {
      MulMono(b + 1, a, n);
    }
  }

  /** Along increasing positions columns do not decrease, and within a column rows do not. */
  lemma PositionsGrow(m: Mapper, x: nat, y: nat)
    requires m.Valid() && x <= y
    ensures OffsetOf(m, x) <= OffsetOf(m, y) && ColOf(m, x) <= ColOf(m, y)
    ensures ColOf(m, x) == ColOf(m, y) ==> RowOf(m, x) <= RowOf(m, y)
  {
    DivMono(x, y, m.patchDepth);
    DivMono(OffsetOf(m, x), OffsetOf(m, y), m.patchRows);
  }

  lemma RowInPatch(m: Mapper, id: nat)
    requires m.Valid()
    ensures 0 <= RowOf(m, id) < m.patchRows
  {
    assert OffsetOf(m, id) == ColOf(m, id) * m.patchRows + OffsetOf(m, id) % m.patchRows;
  }

  /** Column `c` holds the positions from `c` column strides on, up to the next. */
  lemma ColumnRange(m: Mapper, id: nat, c: nat)
    requires m.Valid()
    ensures ColOf(m, id) < c <==> id < c * m.PatchColStride()
  {
    var d, r, o := m.patchDepth, m.patchRows, id / m.patchDepth;
    assert id == o * d + id % d;
    assert o == (o / r) * r + o % r;
    assert c * (r * d) == (c * r) * d;
    if o / r < c {
      MulMono(o / r + 1, c, r);
      assert (o / r + 1) * r == (o / r) * r + r;
      MulMono(o + 1, c * r, d);
      assert (o + 1) * d == o * d + d;
    } else {
      MulMono(c, o / r, r);
      MulMono(c * r, o, d);
    }
  }

  /** Row `r` of column `c` holds `patchDepth` consecutive positions. */
  lemma RowRange(m: Mapper, id: nat, c: nat, r: nat)
    requires m.Valid() && ColOf(m, id) == c
    ensures RowOf(m, id) < r <==> id < c * m.PatchColStride() + r * m.patchDepth
  {
    var d, o := m.patchDepth, OffsetOf(m, id);
    assert id == o * d + id % d;
    var n := c * m.patchRows + r;
    assert n * d == c * (m.patchRows * d) + r * d by {
      assert (c * m.patchRows) * d == c * (m.patchRows * d);
    }
    if o < n {
      MulMono(o + 1, n, d);
      assert (o + 1) * d == o * d + d;
    } else {
      MulMono(n, o, d);
    }
  }

  predicate Padded(index: int, size: nat) { index < 0 || index >= size }

  /** What to add to a position of column `col` to get its place in the input. */
  function ColBase(m: Mapper, b: Base, col: int): int {
    b.row * m.patchDepth - col * m.PatchColStride() + (b.col + col) * m.ColInputStride() + b.other
  }

  /** Standard coefficients of one column lie one after the other in the patch's image. */
  lemma CoeffInColumn(m: Mapper, b: Base, id: nat)
    requires m.Valid() && BaseFits(m, b) && !m.NonStandard()
    ensures var col, row := ColOf(m, id), RowOf(m, id);
            if Padded(b.col + col, m.inputCols) || Padded(b.row + row, m.inputRows) then LoadCoeff(m, id, b) == ZERO
            else InImage(m, b, id + ColBase(m, b, col)) && LoadCoeff(m, id, b) == m.input[id + ColBase(m, b, col)]
  {
    StandardIsCoeff(m, id, b);
    var col, row, o := ColOf(m, id), RowOf(m, id), OffsetOf(m, id);
    var depth := id - o * m.patchDepth;
    assert depth + (b.row + row) * m.patchDepth == id + b.row * m.patchDepth - col * m.PatchColStride() by {
      assert (b.row + row) * m.patchDepth == b.row * m.patchDepth + row * m.patchDepth;
      assert row * m.patchDepth == o * m.patchDepth - (col * m.patchRows) * m.patchDepth;
      assert (col * m.patchRows) * m.patchDepth == col * m.PatchColStride();
    }
    if !Padded(b.col + col, m.inputCols) && !Padded(b.row + row, m.inputRows) {
      InBounds(m, b, depth, b.row + row, b.col + col);
    }
  }
}
