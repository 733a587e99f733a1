/** What the virtual patch matrix holds, by the coordinates of a convolution: which image, output and
    kernel element, and which pixel that reads. */
module Convolution {
  import opened Modular
  import opened SpatialPatches

  /** The patch of image `n` for output column `c` and row `r`. */
  function PatchAt(m: Mapper, n: nat, c: nat, r: nat): nat {
    n * m.numPatches + c * m.outputRows + r
  }

  /** There is such a patch; without a batch dimension there is one image. */
  predicate IsPatch(m: Mapper, n: nat, c: nat, r: nat) {
    r < m.outputRows && if m.batched then c * m.outputRows + r < m.numPatches else n == 0
  }

  /** The position in a patch of kernel column `pc`, kernel row `pr` and depth `d`. */
  function PositionAt(m: Mapper, pc: nat, pr: nat, d: nat): nat {
    (pc * m.patchRows + pr) * m.patchDepth + d
  }

  predicate IsPosition(m: Mapper, pr: nat, d: nat) { pr < m.patchRows && d < m.patchDepth }

  /** The input's element at column `x`, row `y` and depth `d` of image `n`. */
  function PixelIndex(m: Mapper, n: nat, x: nat, y: nat, d: nat): nat {
    ((n * m.inputCols + x) * m.inputRows + y) * m.patchDepth + d
  }

  /** Pixel (x, y) of an image is at (`col`, `row`) once gaps are put between columns and between rows. */
  predicate IsAt(m: Mapper, x: int, y: int, col: int, row: int) {
    0 <= x < m.inputCols && 0 <= y < m.inputRows && col == x * m.colInflate && row == y * m.rowInflate
  }

  /** What image `n` holds at (`col`, `row`), depth `d`: a pixel's element, and zero where there is no pixel. */
  ghost predicate Holds(m: Mapper, n: nat, col: int, row: int, d: nat, v: Scalar) {
    && (forall x: nat, y: nat :: IsAt(m, x, y, col, row) ==>
          PixelIndex(m, n, x, y, d) < |m.input| && v == m.input[PixelIndex(m, n, x, y, d)])
    && ((forall x: nat, y: nat :: !IsAt(m, x, y, col, row)) ==> v == ZERO)
  }

  /** The value that a convolution multiplies with kernel element (`pc`, `pr`, `d`) for output (`n`, `c`, `r`). */
  ghost predicate Reads(m: Mapper, n: nat, c: nat, r: nat, pc: nat, pr: nat, d: nat, v: Scalar) {
    Holds(m, n, c * m.colStrides - m.colPaddingLeft + pc * m.inColStrides,
          r * m.rowStrides - m.rowPaddingTop + pr * m.inRowStrides, d, v)
  }

  // ----- Bases and positions ---------------------------------------------------------------------------

  lemma BaseOfPatch(m: Mapper, n: nat, c: nat, r: nat)
    requires m.Valid() && IsPatch(m, n, c, r)
    ensures BaseIndices(m, PatchAt(m, n, c, r))
         == Base(r * m.rowStrides - m.rowPaddingTop, c * m.colStrides - m.colPaddingLeft, n * m.ImageSize())
  {
    var patch := c * m.outputRows + r;
    DivModUnique(patch, m.outputRows, c, r);
    if m.batched {
      DivModUnique(PatchAt(m, n, c, r), m.numPatches, n, patch);
    }
  }

  lemma PartsOfPosition(m: Mapper, pc: nat, pr: nat, d: nat)
    requires m.Valid() && IsPosition(m, pr, d)
    ensures var id := PositionAt(m, pc, pr, d);
            && OffsetOf(m, id) == pc * m.patchRows + pr && ColOf(m, id) == pc && RowOf(m, id) == pr
            && id - OffsetOf(m, id) * m.patchDepth == d
  {
    DivModUnique(PositionAt(m, pc, pr, d), m.patchDepth, pc * m.patchRows + pr, d);
    DivModUnique(pc * m.patchRows + pr, m.patchRows, pc, pr);
  }

  // ----- Pixels ------------------------------------------------------------------------------------------

  /** The input's layout, with strides multiplied out. */
  lemma PixelPlace(m: Mapper, n: nat, x: nat, y: nat, d: nat)
    ensures PixelIndex(m, n, x, y, d)
         == d + y * m.patchDepth + x * m.ColInputStride() + n * m.ImageSize()
  {
    var p, h, w := m.patchDepth, m.inputRows, m.inputCols;
    Distribute(n * w, x, h);
    Distribute((n * w + x) * h, y, p);
    Distribute((n * w) * h, x * h, p);
    assert (x * h) * p == x * (p * h);
    assert ((n * w) * h) * p == n * ((p * h) * w) by {
      Regroup(n, w, h, p);
    }
  }

  lemma Distribute(a: int, b: int, n: int)
    ensures (a + b) * n == a * n + b * n
  {
  }

  lemma Regroup(n: int, w: int, h: int, p: int)
    ensures ((n * w) * h) * p == n * ((p * h) * w)
  {
    assert (n * w) * h == n * (w * h);
    assert (n * (w * h)) * p == n * ((w * h) * p);
    assert (w * h) * p == (p * h) * w;
  }

  /** Taking the gaps out of a coordinate finds the pixel's, if there is a pixel. */
  lemma OrigIsOnly(input: int, inflate: nat, size: nat, x: nat)
    requires inflate > 0 && x < size && input == x * inflate
    ensures Orig(input, inflate) == x
  {
    MultipleMod(x, inflate);
  }

  /** The coefficient at a position is the pixel that its coordinates lead back to, or zero. */
  lemma CoeffIsPixel(m: Mapper, n: nat, b: Base, pc: nat, pr: nat, d: nat)
    requires m.Valid() && BaseFits(m, b) && b.other == n * m.ImageSize() && IsPosition(m, pr, d)
    ensures var col, row := b.col + pc * m.inColStrides, b.row + pr * m.inRowStrides;
            var x, y := Orig(col, m.colInflate), Orig(row, m.rowInflate);
            var v := LoadCoeff(m, PositionAt(m, pc, pr, d), b);
            if IsAt(m, x, y, col, row) then
              PixelIndex(m, n, x, y, d) < |m.input| && v == m.input[PixelIndex(m, n, x, y, d)]
            else v == ZERO
  {
    PartsOfPosition(m, pc, pr, d);
    var col, row := b.col + pc * m.inColStrides, b.row + pr * m.inRowStrides;
    var x, y := Orig(col, m.colInflate), Orig(row, m.rowInflate);
    if IsAt(m, x, y, col, row) {
      PixelPlace(m, n, x, y, d);
      InBounds(m, b, d, y, x);
    }
  }

  lemma CoeffHolds(m: Mapper, n: nat, b: Base, pc: nat, pr: nat, d: nat)
    requires m.Valid() && BaseFits(m, b) && b.other == n * m.ImageSize() && IsPosition(m, pr, d)
    ensures Holds(m, n, b.col + pc * m.inColStrides, b.row + pr * m.inRowStrides, d,
                  LoadCoeff(m, PositionAt(m, pc, pr, d), b))
  {
    CoeffIsPixel(m, n, b, pc, pr, d);
    var col, row := b.col + pc * m.inColStrides, b.row + pr * m.inRowStrides;
    forall x: nat, y: nat | IsAt(m, x, y, col, row)
      ensures x == Orig(col, m.colInflate) && y == Orig(row, m.rowInflate)
    {
      OrigIsOnly(col, m.colInflate, m.inputCols, x);
      OrigIsOnly(row, m.rowInflate, m.inputRows, y);
    }
  }

  /** The virtual matrix is the convolution's: row by kernel element, column by output. */
  lemma PatchMatrix(m: Mapper, images: nat, n: nat, c: nat, r: nat, pc: nat, pr: nat, d: nat)
    requires m.Valid() && |m.input| == images * m.ImageSize() && n < images
    requires IsPatch(m, n, c, r) && IsPosition(m, pr, d)
    ensures BaseFits(m, BaseIndices(m, PatchAt(m, n, c, r)))
    ensures Reads(m, n, c, r, pc, pr, d,
                  LoadCoeff(m, PositionAt(m, pc, pr, d), BaseIndices(m, PatchAt(m, n, c, r))))
  {
    BaseOfPatch(m, n, c, r);
    MulMono(n + 1, images, m.ImageSize());
    Distribute(n, 1, m.ImageSize());
    CoeffHolds(m, n, BaseIndices(m, PatchAt(m, n, c, r)), pc, pr, d);
  }
}
