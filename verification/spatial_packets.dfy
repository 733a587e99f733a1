/** Packets of consecutive coefficients of a patch: every way of loading one gives the coefficients
    that loading its elements one by one would give. */
module SpatialPackets {
  import opened Modular
  import opened SpatialPatches

  type Packet = seq<Scalar>

  /** The coefficients of a patch, by position. */
  function Coeffs(m: Mapper, b: Base): nat -> Scalar
    requires m.Valid() && BaseFits(m, b)
  {
    (id: nat) => LoadCoeff(m, id, b)
  }

  /** What every way of loading a packet must produce. */
  function Lanes(f: nat -> Scalar, id: nat, size: nat): (p: Packet)
    ensures |p| == size
  {
    seq(size, i requires 0 <= i < size => f(id + i))
  }

  function Zeros(size: nat): (p: Packet)
    ensures |p| == size
  {
    seq(size, _ => ZERO)
  }

  // ----- Stretches of one column -------------------------------------------------------------------

  ghost predicate AllZero(f: nat -> Scalar, id: nat, size: nat) {
    forall x :: id <= x < id + size ==> f(x) == ZERO
  }

  ghost predicate ReadOne(f: nat -> Scalar, x: nat, input: seq<Scalar>, base: int) {
    0 <= x + base < |input| && input[x + base] == f(x)
  }

  ghost predicate ReadAt(f: nat -> Scalar, id: nat, size: nat, input: seq<Scalar>, base: int) {
    forall x :: id <= x < id + size ==> ReadOne(f, x, input, base)
  }

  lemma ZeroLanes(f: nat -> Scalar, id: nat, size: nat)
    requires AllZero(f, id, size)
    ensures Zeros(size) == Lanes(f, id, size)
  {
  }

  lemma ReadLanes(f: nat -> Scalar, id: nat, size: nat, input: seq<Scalar>, base: int)
    requires size > 0 && ReadAt(f, id, size, input, base)
    ensures 0 <= id + base && id + size + base <= |input|
    ensures input[id + base..id + base + size] == Lanes(f, id, size)
  {
    assert ReadOne(f, id, input, base) && ReadOne(f, id + size - 1, input, base);
    var r := input[id + base..id + base + size];
    forall i | 0 <= i < size ensures r[i] == Lanes(f, id, size)[i] {
      assert ReadOne(f, id + i, input, base);
    }
  }

  /** The positions of a stretch that begins and ends in one column: their rows run from its first
      row to its last one. */
  lemma StretchInColumn(m: Mapper, id: nat, x: nat, last: nat)
    requires m.Valid() && id <= x <= last && ColOf(m, id) == ColOf(m, last)
    ensures ColOf(m, x) == ColOf(m, id) && RowOf(m, id) <= RowOf(m, x) <= RowOf(m, last)
  {
    PositionsGrow(m, id, x);
    PositionsGrow(m, x, last);
  }

  ghost predicate OneColumn(m: Mapper, id: nat, size: nat)
    requires m.Valid()
  {
    size > 0 && ColOf(m, id) == ColOf(m, id + size - 1)
  }

  /** A stretch of a padded column, or of padded rows on one side of the input, is zero. */
  lemma PaddedStretch(m: Mapper, b: Base, id: nat, size: nat)
    requires m.Valid() && BaseFits(m, b) && !m.NonStandard() && OneColumn(m, id, size)
    requires || Padded(b.col + ColOf(m, id), m.inputCols) || b.row + RowOf(m, id) >= m.inputRows
             || b.row + RowOf(m, id + size - 1) < 0
    ensures AllZero(Coeffs(m, b), id, size)
  {
    var f := Coeffs(m, b);
    forall x | id <= x < id + size ensures f(x) == ZERO {
      StretchInColumn(m, id, x, id + size - 1);
      CoeffInColumn(m, b, x);
    }
  }

  ghost predicate Unpadded(m: Mapper, b: Base, id: nat, size: nat)
    requires m.Valid() && size > 0
  {
    && OneColumn(m, id, size) && !Padded(b.col + ColOf(m, id), m.inputCols)
    && b.row + RowOf(m, id) >= 0 && b.row + RowOf(m, id + size - 1) < m.inputRows
  }

  lemma UnpaddedPosition(m: Mapper, b: Base, id: nat, size: nat, x: nat)
    requires m.Valid() && BaseFits(m, b) && !m.NonStandard() && size > 0 && Unpadded(m, b, id, size)
    requires id <= x < id + size
    ensures ColOf(m, x) == ColOf(m, id) && !Padded(b.row + RowOf(m, x), m.inputRows)
  {
    StretchInColumn(m, id, x, id + size - 1);
  }

  lemma UnpaddedRead(m: Mapper, b: Base, id: nat, size: nat, x: nat)
    requires m.Valid() && BaseFits(m, b) && !m.NonStandard() && size > 0 && Unpadded(m, b, id, size)
    requires id <= x < id + size
    ensures ReadOne(Coeffs(m, b), x, m.input, ColBase(m, b, ColOf(m, id)))
    ensures InImage(m, b, x + ColBase(m, b, ColOf(m, id)))
  {
    UnpaddedPosition(m, b, id, size, x);
    CoeffInColumn(m, b, x);
  }

  /** An unpadded stretch of one column is a contiguous read inside the patch's image. */
  lemma UnpaddedStretch(m: Mapper, b: Base, id: nat, size: nat)
    requires m.Valid() && BaseFits(m, b) && !m.NonStandard() && size > 0 && Unpadded(m, b, id, size)
    ensures ReadAt(Coeffs(m, b), id, size, m.input, ColBase(m, b, ColOf(m, id)))
    ensures var at := id + ColBase(m, b, ColOf(m, id));
            b.other <= at && at + size <= b.other + m.ImageSize()
  {
    UnpaddedRead(m, b, id, size, id);
    UnpaddedRead(m, b, id, size, id + size - 1);
    var f, base := Coeffs(m, b), ColBase(m, b, ColOf(m, id));
    forall x | id <= x < id + size ensures ReadOne(f, x, m.input, base) {
      UnpaddedRead(m, b, id, size, x);
    }
  }

  /** The index that the packet loads compute from depth, row and column. */
  lemma IndexIsColBase(m: Mapper, b: Base, id: nat)
    requires m.Valid()
    ensures (id - OffsetOf(m, id) * m.patchDepth) + (b.row + RowOf(m, id)) * m.patchDepth
            + (b.col + ColOf(m, id)) * m.ColInputStride() + b.other
         == id + ColBase(m, b, ColOf(m, id))
  {
    var col, row, o := ColOf(m, id), RowOf(m, id), OffsetOf(m, id);
    assert (b.row + row) * m.patchDepth == b.row * m.patchDepth + row * m.patchDepth;
    assert row * m.patchDepth == o * m.patchDepth - (col * m.patchRows) * m.patchDepth;
    assert (col * m.patchRows) * m.patchDepth == col * m.PatchColStride();
  }

  // ----- Whole packets -------------------------------------------------------------------------------

  /** Element by element, into a local array. */
  method PacketWithPossibleZero(m: Mapper, id: nat, b: Base, packetSize: nat) returns (p: Packet)
    requires m.Valid() && BaseFits(m, b)
    ensures p == Lanes(Coeffs(m, b), id, packetSize)
  {
    var values := new Scalar[packetSize];
    ghost var f := Coeffs(m, b);
    for i := 0 to packetSize
      invariant forall k :: 0 <= k < i ==> values[k] == Lanes(f, id, packetSize)[k]
    {
      values[i] := LoadCoeff(m, id + i, b);
    }
    p := values[..];
  }

  /** A packet of an unpadded stretch. */
  method PacketAt(m: Mapper, b: Base, id: nat, depth: int, inputRow: int, inputCol: int, packetSize: nat)
    returns (p: Packet)
    requires m.Valid() && BaseFits(m, b) && !m.NonStandard() && packetSize > 0 && Unpadded(m, b, id, packetSize)
    requires depth == id - OffsetOf(m, id) * m.patchDepth
    requires inputRow == b.row + RowOf(m, id) && inputCol == b.col + ColOf(m, id)
    ensures p == Lanes(Coeffs(m, b), id, packetSize)
  {
    var inputIndex := depth + inputRow * m.patchDepth + inputCol * m.ColInputStride() + b.other;
    IndexIsColBase(m, b, id);
    UnpaddedStretch(m, b, id, packetSize);
    ReadLanes(Coeffs(m, b), id, packetSize, m.input, ColBase(m, b, ColOf(m, id)));
    p := m.input[inputIndex..inputIndex + packetSize];
  }

  /** A packet that cannot leave a row, since the depth is a multiple of the packet size. */
  method LoadPacketFast(m: Mapper, id: nat, b: Base, packetSize: nat) returns (p: Packet)
    requires m.Valid() && BaseFits(m, b) && !m.NonStandard() && packetSize > 0
    requires OffsetOf(m, id + packetSize - 1) == OffsetOf(m, id)
    ensures p == Lanes(Coeffs(m, b), id, packetSize)
  {
    var patchOffset := id / m.patchDepth;
    var colOffset := patchOffset / m.patchRows;
    var rowOffset := patchOffset - colOffset * m.patchRows;
    var inputCol, inputRow := b.col + colOffset, b.row + rowOffset;
    if inputCol < 0 || inputRow < 0 || inputCol >= m.inputCols || inputRow >= m.inputRows {
      PaddedStretch(m, b, id, packetSize);
      ZeroLanes(Coeffs(m, b), id, packetSize);
      p := Zeros(packetSize);
    } else {
      var depth := id - patchOffset * m.patchDepth;
      p := PacketAt(m, b, id, depth, inputRow, inputCol, packetSize);
    }
  }

  /** With a depth that is a multiple of the packet size, aligned packets stay in one row. */
  lemma AlignedPacketStaysInRow(m: Mapper, id: nat, packetSize: nat)
    requires m.Valid() && packetSize > 0 && m.patchDepth % packetSize == 0 && id % packetSize == 0
    ensures OffsetOf(m, id + packetSize - 1) == OffsetOf(m, id)
  {
    var d, n := m.patchDepth, packetSize;
    var o, dep := id / d, id % d;
    assert id == o * d + dep;
    MultipleOf(o, d, n);
    assert dep % n == 0 by {
      AddMultiple(dep, o * d, n);
    }
    NextMultiple(dep, d, n);
    DivModUnique(id + n - 1, d, o, dep + n - 1);
  }

  lemma MultipleOf(k: int, d: int, n: int)
    requires n > 0 && d % n == 0
    ensures (k * d) % n == 0
  {
    var q := d / n;
    assert d == q * n && k * d == (k * q) * n;
    MultipleMod(k * q, n);
  }

  // ----- Partial packets -----------------------------------------------------------------------------

  /** A packet that holds coefficients from position `id` on in its lanes `first` to `last`, and zeros. */
  function Masked(f: nat -> Scalar, id: nat, first: nat, last: nat, size: nat): (p: Packet)
    requires first <= last < size
    ensures |p| == size
  {
    seq(size, j requires 0 <= j < size => if first <= j <= last then f(id + (j - first)) else ZERO)
  }

  lemma ZeroMasked(f: nat -> Scalar, id: nat, first: nat, last: nat, size: nat)
    requires first <= last < size && AllZero(f, id, last - first + 1)
    ensures Zeros(size) == Masked(f, id, first, last, size)
  {
    forall j | 0 <= j < size ensures Masked(f, id, first, last, size)[j] == ZERO {
      if first <= j <= last {
        assert f(id + (j - first)) == ZERO;
      }
    }
  }

  /** A masked load from `at`: only lanes in `[from, to)` are read, the others are zero. */
  method PartialPacket(input: seq<Scalar>, at: int, from: nat, to: nat, packetSize: nat) returns (p: Packet)
    requires from <= to <= packetSize && 0 <= at + from && at + to <= |input|
    ensures |p| == packetSize
    ensures forall j :: 0 <= j < packetSize ==> p[j] == if from <= j < to then input[at + j] else ZERO
  {
    p := seq(packetSize, j requires 0 <= j < packetSize => if from <= j < to then input[at + j] else ZERO);
  }

  lemma ReadMasked(f: nat -> Scalar, id: nat, first: nat, last: nat, size: nat, input: seq<Scalar>, base: int,
                   p: Packet)
    requires first <= last < size && |p| == size && ReadAt(f, id, last - first + 1, input, base)
    requires 0 <= id + base && id + base + (last - first) < |input|
    requires forall j :: 0 <= j < size ==> p[j] == if first <= j <= last then input[id + base - first + j] else ZERO
    ensures p == Masked(f, id, first, last, size)
  {
    forall j | 0 <= j < size ensures Masked(f, id, first, last, size)[j] == p[j] {
      if first <= j <= last {
        assert ReadOne(f, id + (j - first), input, base);
      }
    }
  }

  /** The slow path: zeros, elements, zeros. */
  method SlowPartialPacket(m: Mapper, b: Base, id: nat, first: nat, last: nat, packetSize: nat) returns (p: Packet)
    requires m.Valid() && BaseFits(m, b) && first <= last < packetSize
    ensures p == Masked(Coeffs(m, b), id, first, last, packetSize)
  {
    var values := new Scalar[packetSize];
    ghost var goal := Masked(Coeffs(m, b), id, first, last, packetSize);
    for i := 0 to first
      invariant forall k :: 0 <= k < i ==> values[k] == goal[k]
    {
      values[i] := ZERO;
    }
    for i := first to last + 1
      invariant forall k :: 0 <= k < i ==> values[k] == goal[k]
    {
      values[i] := LoadCoeff(m, id - first + i, b);
    }
    for i := last + 1 to packetSize
      invariant forall k :: 0 <= k < i ==> values[k] == goal[k]
    {
      values[i] := ZERO;
    }
    p := values[..];
  }

  /** The fast path: a masked load of an unpadded stretch. */
  method FastPartialPacket(m: Mapper, b: Base, id: nat, first: nat, last: nat, depth: int, inputRow: int,
                           inputCol: int, packetSize: nat)
    returns (p: Packet)
    requires m.Valid() && BaseFits(m, b) && !m.NonStandard() && first <= last < packetSize
    requires Unpadded(m, b, id, last - first + 1)
    requires depth == id - OffsetOf(m, id) * m.patchDepth
    requires inputRow == b.row + RowOf(m, id) && inputCol == b.col + ColOf(m, id)
    ensures p == Masked(Coeffs(m, b), id, first, last, packetSize)
  {
    var inputIndex := depth + inputRow * m.patchDepth + inputCol * m.ColInputStride() + b.other;
    IndexIsColBase(m, b, id);
    UnpaddedStretch(m, b, id, last - first + 1);
    ghost var base := ColBase(m, b, ColOf(m, id));
    ReadLanes(Coeffs(m, b), id, last - first + 1, m.input, base);
    p := PartialPacket(m.input, inputIndex - first, first, last + 1, packetSize);
    ReadMasked(Coeffs(m, b), id, first, last, packetSize, m.input, base, p);
  }

  /** The part of a packet that lies in column `col`: lanes `first` to `last`, the others zero.
      `id` is the position of lane `first`. */
  method LoadPartialPacketStandard(m: Mapper, b: Base, id: nat, first: nat, last: nat, off0: nat, off1: nat, col: nat,
                                   packetSize: nat)
    returns (p: Packet)
    requires m.Valid() && BaseFits(m, b) && !m.NonStandard() && first <= last < packetSize
    requires off0 == OffsetOf(m, id) && off1 == OffsetOf(m, id + (last - first))
    requires col == ColOf(m, id) == ColOf(m, id + (last - first))
    ensures p == Masked(Coeffs(m, b), id, first, last, packetSize)
  {
    var inputCol := b.col + col;
    var inputRow0, inputRow1 := b.row + (off0 - col * m.patchRows), b.row + (off1 - col * m.patchRows);
    if inputRow0 >= m.inputRows || inputRow1 < 0 || inputCol >= m.inputCols || inputCol < 0 {
      PaddedStretch(m, b, id, last - first + 1);
      ZeroMasked(Coeffs(m, b), id, first, last, packetSize);
      p := Zeros(packetSize);
    } else if inputRow0 >= 0 && inputRow1 < m.inputRows {
      var depth := id - off0 * m.patchDepth;
      p := FastPartialPacket(m, b, id, first, last, depth, inputRow0, inputCol, packetSize);
    } else {
      p := SlowPartialPacket(m, b, id, first, last, packetSize);
    }
  }

  // ----- Packets across columns ------------------------------------------------------------------------

  /** Bit-wise "or" of lanes of which at most one is not zero. */
  function Or(p: Packet, q: Packet): (r: Packet)
    requires |p| == |q|
    ensures |r| == |p|
  {
    seq(|p|, i requires 0 <= i < |p| => if p[i] == ZERO then q[i] else p[i])
  }

  lemma OrOfParts(f: nat -> Scalar, id: nat, split: nat, size: nat)
    requires split + 1 < size
    ensures Or(Masked(f, id, 0, split, size), Masked(f, id + split + 1, split + 1, size - 1, size))
         == Lanes(f, id, size)
  {
    var p, q := Masked(f, id, 0, split, size), Masked(f, id + split + 1, split + 1, size - 1, size);
    forall j | 0 <= j < size ensures Or(p, q)[j] == Lanes(f, id, size)[j] {
      assert j > split ==> id + split + 1 + (j - (split + 1)) == id + j;
    }
  }

  /** Where the second column begins, and that the first one ends right before. */
  lemma ColumnStart(m: Mapper, col: nat)
    requires m.Valid() && col > 0
    ensures var start := (col * m.patchRows) * m.patchDepth;
            && start > 0 && ColOf(m, start - 1) < col <= ColOf(m, start)
            && OffsetOf(m, start) == OffsetOf(m, start - 1) + 1
  {
    var d, o := m.patchDepth, col * m.patchRows;
    var start := o * d;
    MulAtLeast(col, m.patchRows);
    MulAtLeast(o, d);
    assert start == col * m.PatchColStride();
    ColumnRange(m, start - 1, col);
    ColumnRange(m, start, col);
    DivModUnique(start, d, o, 0);
    assert start - 1 == (o - 1) * d + (d - 1);
    DivModUnique(start - 1, d, o - 1, d - 1);
  }

  /** The split of a packet whose lanes lie in two neighbouring columns. */
  lemma ColumnSplit(m: Mapper, id: nat, col1: nat, last: nat)
    requires m.Valid() && id <= last && col1 == ColOf(m, id) + 1 == ColOf(m, last)
    ensures var start := (col1 * m.patchRows) * m.patchDepth;
            id < start <= last && ColOf(m, start - 1) == col1 - 1 && ColOf(m, start) == col1
  {
    var start := (col1 * m.patchRows) * m.patchDepth;
    assert start == col1 * m.PatchColStride();
    ColumnRange(m, id, col1);
    ColumnRange(m, last, col1);
    ColumnStart(m, col1);
    PositionsGrow(m, id, start - 1);
    PositionsGrow(m, start, last);
  }

  /** A packet split across two neighbouring columns: two partial packets, put together. */
  method LoadPacketStandardFromTwoColumns(m: Mapper, id: nat, b: Base, off0: nat, off1: nat, col0: nat, col1: nat,
                                          packetSize: nat)
    returns (p: Packet)
    requires m.Valid() && BaseFits(m, b) && !m.NonStandard() && packetSize > 1
    requires off0 == OffsetOf(m, id) && off1 == OffsetOf(m, id + packetSize - 1)
    requires col0 == ColOf(m, id) && col1 == ColOf(m, id + packetSize - 1) && col1 == col0 + 1
    ensures p == Lanes(Coeffs(m, b), id, packetSize)
  {
    ColumnSplit(m, id, col1, id + packetSize - 1);
    ColumnStart(m, col1);
    var idSplit := (col1 * m.patchRows) * m.patchDepth - 1;
    var offSplit := idSplit / m.patchDepth;
    var split := idSplit - id;
    assert (idSplit + 1) + (packetSize - 1 - (split + 1)) == id + packetSize - 1;
    var p0 := LoadPartialPacketStandard(m, b, id, 0, split, off0, offSplit, col0, packetSize);
    var p1 := LoadPartialPacketStandard(m, b, idSplit + 1, split + 1, packetSize - 1, offSplit + 1, off1, col1,
                                        packetSize);
    OrOfParts(Coeffs(m, b), id, split, packetSize);
    p := Or(p0, p1);
  }

  /** A packet within a single column. */
  method LoadPacketStandardFromSingleColumn(m: Mapper, id: nat, b: Base, off0: nat, off1: nat, col: nat,
                                            packetSize: nat)
    returns (p: Packet)
    requires m.Valid() && BaseFits(m, b) && !m.NonStandard() && packetSize > 1
    requires off0 == OffsetOf(m, id) && off1 == OffsetOf(m, id + packetSize - 1)
    requires col == ColOf(m, id) == ColOf(m, id + packetSize - 1) && !Padded(b.col + col, m.inputCols)
    ensures p == Lanes(Coeffs(m, b), id, packetSize)
  {
    var inputRow0, inputRow1 := b.row + (off0 - col * m.patchRows), b.row + (off1 - col * m.patchRows);
    if inputRow0 >= m.inputRows || inputRow1 < 0 {
      PaddedStretch(m, b, id, packetSize);
      ZeroLanes(Coeffs(m, b), id, packetSize);
      p := Zeros(packetSize);
    } else if inputRow0 >= 0 && inputRow1 < m.inputRows {
      var depth := id - off0 * m.patchDepth;
      p := PacketAt(m, b, id, depth, inputRow0, b.col + col, packetSize);
    } else {
      p := PacketWithPossibleZero(m, id, b, packetSize);
    }
  }

  /** Columns wholly in the padding on one side. */
  lemma PaddedColumns(m: Mapper, b: Base, id: nat, size: nat)
    requires m.Valid() && BaseFits(m, b) && !m.NonStandard() && size > 0
    requires b.col + ColOf(m, id) >= m.inputCols || b.col + ColOf(m, id + size - 1) < 0
    ensures AllZero(Coeffs(m, b), id, size)
  {
    var f := Coeffs(m, b);
    forall x | id <= x < id + size ensures f(x) == ZERO {
      PositionsGrow(m, id, x);
      PositionsGrow(m, x, id + size - 1);
      CoeffInColumn(m, b, x);
    }
  }

  /** Every way of loading a standard packet gives the same lanes; `masked` says whether masked
      loads are available. */
  method LoadPacketStandard(m: Mapper, id: nat, b: Base, packetSize: nat, masked: bool) returns (p: Packet)
    requires m.Valid() && BaseFits(m, b) && !m.NonStandard() && packetSize > 1
    requires m.patchDepth % packetSize == 0 ==> OffsetOf(m, id + packetSize - 1) == OffsetOf(m, id)
    ensures p == Lanes(Coeffs(m, b), id, packetSize)
  {
    if m.patchDepth % packetSize == 0 {
      p := LoadPacketFast(m, id, b, packetSize);
    } else {
      p := LoadAnyPacketStandard(m, id, b, packetSize, masked);
    }
  }

  /** The same when the packet may leave its row. */
  method LoadAnyPacketStandard(m: Mapper, id: nat, b: Base, packetSize: nat, masked: bool) returns (p: Packet)
    requires m.Valid() && BaseFits(m, b) && !m.NonStandard() && packetSize > 1
    ensures p == Lanes(Coeffs(m, b), id, packetSize)
  {
    var off0, off1 := id / m.patchDepth, (id + packetSize - 1) / m.patchDepth;
    var col0, col1 := off0 / m.patchRows, off1 / m.patchRows;
    var inputCol0, inputCol1 := b.col + col0, b.col + col1;
    PositionsGrow(m, id, id + packetSize - 1);
    if inputCol0 >= m.inputCols || inputCol1 < 0 {
      PaddedColumns(m, b, id, packetSize);
      ZeroLanes(Coeffs(m, b), id, packetSize);
      p := Zeros(packetSize);
    } else if inputCol0 == inputCol1 {
      p := LoadPacketStandardFromSingleColumn(m, id, b, off0, off1, col0, packetSize);
    } else if masked && inputCol1 == inputCol0 + 1 {
      p := LoadPacketStandardFromTwoColumns(m, id, b, off0, off1, col0, col1, packetSize);
    } else {
      p := PacketWithPossibleZero(m, id, b, packetSize);
    }
  }

  method LoadPacket(m: Mapper, id: nat, b: Base, packetSize: nat, masked: bool) returns (p: Packet)
    requires m.Valid() && BaseFits(m, b) && packetSize > 1
    requires !m.NonStandard() && m.patchDepth % packetSize == 0 ==> OffsetOf(m, id + packetSize - 1) == OffsetOf(m, id)
    ensures p == Lanes(Coeffs(m, b), id, packetSize)
  {
    if m.NonStandard() {
      p := PacketWithPossibleZero(m, id, b, packetSize);
    } else {
      p := LoadPacketStandard(m, id, b, packetSize, masked);
    }
  }
}
