/** Packing a block of the virtual patch matrix: four columns interleaved, then what is left over one
    column at a time. The fast paths read packets straight from the image. */
module GemmPack {
  import opened Basics
  import opened Modular
  import opened SpatialPatches
  import opened SpatialPackets
  import opened Convolution

  // ----- The block ---------------------------------------------------------------------------------

  ghost function Overwrite(s: seq<Scalar>, at: nat, data: seq<Scalar>): (r: seq<Scalar>)
    requires at + |data| <= |s|
    ensures |r| == |s|
  {
    seq(|s|, i requires 0 <= i < |s| => if at <= i < at + |data| then data[i - at] else s[i])
  }

  lemma OverwriteTwice(s: seq<Scalar>, at: nat, x: seq<Scalar>, y: seq<Scalar>)
    requires at + |x| + |y| <= |s|
    ensures Overwrite(Overwrite(s, at, x), at + |x|, y) == Overwrite(s, at, x + y)
  {
  }

  lemma OverwriteNothing(s: seq<Scalar>, at: nat)
    requires at <= |s|
    ensures Overwrite(s, at, []) == s
  {
  }

  method Store(block: array<Scalar>, at: nat, data: seq<Scalar>)
    requires at + |data| <= block.Length
    modifies block
    ensures block[..] == Overwrite(old(block[..]), at, data)
  {
    forall i | 0 <= i < |data| {
      block[at + i] := data[i];
    }
  }

  // ----- Four columns interleaved --------------------------------------------------------------------

  ghost predicate FourBases(m: Mapper, bs: seq<Base>) {
    |bs| == 4 && forall j :: 0 <= j < 4 ==> BaseFits(m, bs[j])
  }

  function Columns(m: Mapper, bs: seq<Base>): (fs: seq<nat -> Scalar>)
    requires m.Valid() && FourBases(m, bs)
    ensures |fs| == 4
  {
    [Coeffs(m, bs[0]), Coeffs(m, bs[1]), Coeffs(m, bs[2]), Coeffs(m, bs[3])]
  }

  /** Positions `id` to `id + n` of four columns: the four coefficients of a position side by side. */
  function Packed(fs: seq<nat -> Scalar>, id: nat, n: nat): (s: seq<Scalar>)
    requires |fs| == 4
    ensures |s| == 4 * n
  {
    seq(4 * n, i requires 0 <= i < 4 * n => fs[i % 4](id + i / 4))
  }

  lemma PackedAppend(fs: seq<nat -> Scalar>, id: nat, a: nat, b: nat)
    requires |fs| == 4
    ensures Packed(fs, id, a) + Packed(fs, id + a, b) == Packed(fs, id, a + b)
  {
    var s, t := Packed(fs, id, a) + Packed(fs, id + a, b), Packed(fs, id, a + b);
    forall i | 0 <= i < |s| ensures s[i] == t[i] {
      if i >= 4 * a {
        var k := i - 4 * a;
        assert k % 4 == i % 4 && k / 4 + a == i / 4;
      }
    }
  }

  /** Writing two neighbouring stretches writes their union. */
  lemma PackedTwice(s: seq<Scalar>, at: nat, fs: seq<nat -> Scalar>, id: nat, a: nat, b: nat)
    requires |fs| == 4 && at + 4 * (a + b) <= |s|
    ensures Overwrite(Overwrite(s, at, Packed(fs, id, a)), at + 4 * a, Packed(fs, id + a, b))
         == Overwrite(s, at, Packed(fs, id, a + b))
  {
    OverwriteTwice(s, at, Packed(fs, id, a), Packed(fs, id + a, b));
    PackedAppend(fs, id, a, b);
  }

  ghost predicate FourPackets(p: seq<Packet>, n: nat) {
    |p| == 4 && forall j :: 0 <= j < 4 ==> |p[j]| == n
  }

  function Interleaved(p: seq<Packet>, n: nat): (s: seq<Scalar>)
    requires FourPackets(p, n)
    ensures |s| == 4 * n
  {
    seq(4 * n, i requires 0 <= i < 4 * n => p[i % 4][i / 4])
  }

  lemma InterleavedLanes(fs: seq<nat -> Scalar>, id: nat, n: nat, p: seq<Packet>)
    requires |fs| == 4 && FourPackets(p, n) && forall j :: 0 <= j < 4 ==> p[j] == Lanes(fs[j], id, n)
    ensures Interleaved(p, n) == Packed(fs, id, n)
  {
    forall i | 0 <= i < 4 * n ensures Interleaved(p, n)[i] == Packed(fs, id, n)[i] {
      assert p[i % 4] == Lanes(fs[i % 4], id, n);
    }
  }

  method StoreTwo(block: array<Scalar>, at: nat, x: Packet, y: Packet)
    requires at + |x| + |y| <= block.Length
    modifies block
    ensures block[..] == Overwrite(old(block[..]), at, x + y)
  {
    ghost var s := block[..];
    Store(block, at, x);
    Store(block, at + |x|, y);
    OverwriteTwice(s, at, x, y);
  }

  method StoreFour(block: array<Scalar>, at: nat, t: seq<Packet>, n: nat)
    requires FourPackets(t, n) && at + 4 * n <= block.Length
    modifies block
    ensures block[..] == Overwrite(old(block[..]), at, t[0] + t[1] + (t[2] + t[3]))
  {
    ghost var s := block[..];
    StoreTwo(block, at, t[0], t[1]);
    StoreTwo(block, at + 2 * n, t[2], t[3]);
    OverwriteTwice(s, at, t[0] + t[1], t[2] + t[3]);
  }

  /** The kernel after transposition: two lanes take two kernels of two packets. */
  function Transposed(p: seq<Packet>, n: nat): (t: seq<Packet>)
    requires FourPackets(p, n)
    ensures FourPackets(t, n)
  {
    if n == 2 then
      [[p[0][0], p[1][0]], [p[2][0], p[3][0]], [p[0][1], p[1][1]], [p[2][1], p[3][1]]]
    else
      var k := Interleaved(p, n);
      [k[0..n], k[n..2 * n], k[2 * n..3 * n], k[3 * n..4 * n]]
  }

  lemma SliceJoin(k: seq<Scalar>, i: nat, j: nat, l: nat)
    requires i <= j <= l <= |k|
    ensures k[i..j] + k[j..l] == k[i..l]
  {
  }

  lemma TransposedInterleaves(p: seq<Packet>, n: nat)
    requires FourPackets(p, n)
    ensures var t := Transposed(p, n); t[0] + t[1] + (t[2] + t[3]) == Interleaved(p, n)
  {
    var t, k := Transposed(p, n), Interleaved(p, n);
    if n == 2 {
      assert t[0] + t[1] == [p[0][0], p[1][0], p[2][0], p[3][0]];
      assert t[2] + t[3] == [p[0][1], p[1][1], p[2][1], p[3][1]];
    } else {
      SliceJoin(k, 0, n, 2 * n);
      SliceJoin(k, 2 * n, 3 * n, 4 * n);
    }
  }

  method StoreTransposed(block: array<Scalar>, at: nat, p: seq<Packet>, n: nat)
    requires FourPackets(p, n) && at + 4 * n <= block.Length
    modifies block
    ensures block[..] == Overwrite(old(block[..]), at, Interleaved(p, n))
  {
    TransposedInterleaves(p, n);
    StoreFour(block, at, Transposed(p, n), n);
  }

  // ----- A run of packets read from the image -----------------------------------------------------------

  /** A stretch that is all padding, or that lies in the input at a fixed distance. */
  ghost predicate Run(f: nat -> Scalar, id: nat, n: nat, input: seq<Scalar>, pad: bool, base: int) {
    if pad then AllZero(f, id, n) else ReadAt(f, id, n, input, base)
  }

  lemma RunPacket(f: nat -> Scalar, id: nat, n: nat, input: seq<Scalar>, pad: bool, base: int, x: nat, size: nat)
    requires Run(f, id, n, input, pad, base) && id <= x && x + size <= id + n && size > 0
    ensures pad ==> Zeros(size) == Lanes(f, x, size)
    ensures !pad ==>
              0 <= x + base && x + base + size <= |input| && input[x + base..x + base + size] == Lanes(f, x, size)
  {
    if pad {
      assert AllZero(f, x, size);
      ZeroLanes(f, x, size);
    } else {
      assert ReadAt(f, x, size, input, base);
      ReadLanes(f, x, size, input, base);
    }
  }

  ghost predicate FourRuns(fs: seq<nat -> Scalar>, id: nat, n: nat, input: seq<Scalar>, pads: seq<bool>,
                           idx: seq<int>, d0: int) {
    && |fs| == 4 && |pads| == 4 && |idx| == 4
    && forall j :: 0 <= j < 4 ==> Run(fs[j], id, n, input, pads[j], idx[j] + d0 - id)
  }

  function PacketOrZeros(input: seq<Scalar>, pad: bool, at: int, size: nat): (p: Packet)
    requires !pad ==> 0 <= at && at + size <= |input|
    ensures |p| == size
  {
    if pad then Zeros(size) else input[at..at + size]
  }

  /** What is to be written: four columns from position `off` on, at index `at` of a block that held
      `before`. */
  datatype Goal = Goal(before: seq<Scalar>, at: nat, fs: seq<nat -> Scalar>, off: nat)

  /** The block holds the goal's positions up to `id`, and is otherwise as it was. */
  ghost predicate Filled(g: Goal, s: seq<Scalar>, id: nat) {
    && |g.fs| == 4 && g.off <= id && g.at + 4 * (id - g.off) <= |g.before|
    && s == Overwrite(g.before, g.at, Packed(g.fs, g.off, id - g.off))
  }

  /** Position `id` goes to index `at`, and `left` more positions fit. */
  ghost predicate Fits(g: Goal, at: nat, id: nat, left: nat) {
    |g.fs| == 4 && g.off <= id && at == g.at + 4 * (id - g.off) && at + 4 * left <= |g.before|
  }

  lemma FilledMore(g: Goal, s: seq<Scalar>, at: nat, id: nat, n: nat)
    requires Filled(g, s, id) && Fits(g, at, id, n)
    ensures Filled(g, Overwrite(s, at, Packed(g.fs, id, n)), id + n)
  {
    var done := id - g.off;
    assert id == g.off + done && id + n - g.off == done + n && at == g.at + 4 * done;
    PackedTwice(g.before, g.at, g.fs, g.off, done, n);
    assert Overwrite(s, at, Packed(g.fs, id, n)) == Overwrite(g.before, g.at, Packed(g.fs, g.off, done + n));
  }

  lemma FilledNothing(g: Goal)
    requires |g.fs| == 4 && g.at <= |g.before|
    ensures Filled(g, g.before, g.off)
  {
    OverwriteNothing(g.before, g.at);
  }

  /** The packets of four runs. */
  lemma FourPacketsOfRuns(fs: seq<nat -> Scalar>, id: nat, n: nat, input: seq<Scalar>, pads: seq<bool>, idx: seq<int>,
                          d0: nat, d: nat, packetSize: nat)
    requires FourRuns(fs, id, n, input, pads, idx, d0) && packetSize > 0 && d0 <= d && d - d0 + packetSize <= n
    ensures forall j :: 0 <= j < 4 ==>
              && (pads[j] || (0 <= d + idx[j] && d + idx[j] + packetSize <= |input|))
              && PacketOrZeros(input, pads[j], d + idx[j], packetSize) == Lanes(fs[j], id + (d - d0), packetSize)
  {
    forall j | 0 <= j < 4
      ensures pads[j] || (0 <= d + idx[j] && d + idx[j] + packetSize <= |input|)
      ensures PacketOrZeros(input, pads[j], d + idx[j], packetSize) == Lanes(fs[j], id + (d - d0), packetSize)
    {
      RunPacket(fs[j], id, n, input, pads[j], idx[j] + d0 - id, id + (d - d0), packetSize);
    }
  }

  /** One kernel of a run. */
  method StoreKernel(block: array<Scalar>, at: nat, input: seq<Scalar>, ghost g: Goal, ghost id: nat, ghost n: nat,
                     pads: seq<bool>, idx: seq<int>, ghost d0: nat, d: nat, packetSize: nat)
    requires FourRuns(g.fs, id, n, input, pads, idx, d0) && packetSize > 0 && d0 <= d && d - d0 + packetSize <= n
    requires Filled(g, block[..], id + (d - d0)) && Fits(g, at, id + (d - d0), packetSize)
    modifies block
    ensures Filled(g, block[..], id + (d - d0) + packetSize)
  {
    FourPacketsOfRuns(g.fs, id, n, input, pads, idx, d0, d, packetSize);
    var p := [PacketOrZeros(input, pads[0], d + idx[0], packetSize),
              PacketOrZeros(input, pads[1], d + idx[1], packetSize),
              PacketOrZeros(input, pads[2], d + idx[2], packetSize),
              PacketOrZeros(input, pads[3], d + idx[3], packetSize)];
    StorePackets(block, at, g, id + (d - d0), p, packetSize);
  }

  /** Four packets of lanes fill as many positions. */
  method StorePackets(block: array<Scalar>, at: nat, ghost g: Goal, ghost id: nat, p: seq<Packet>, packetSize: nat)
    requires Filled(g, block[..], id) && Fits(g, at, id, packetSize)
    requires FourPackets(p, packetSize) && forall j :: 0 <= j < 4 ==> p[j] == Lanes(g.fs[j], id, packetSize)
    modifies block
    ensures Filled(g, block[..], id + packetSize)
  {
    FilledMore(g, block[..], at, id, packetSize);
    InterleavedLanes(g.fs, id, packetSize, p);
    StoreTransposed(block, at, p, packetSize);
  }

  // ----- Whole packets -----------------------------------------------------------------------------------

  /** A number of positions that whole packets fill. */
  ghost predicate Whole(x: nat, n: nat)
    requires n > 0
  {
    x == 0 || (x >= n && Whole(x - n, n))
  }

  lemma {:induction false} WholeIsMultiple(x: nat, n: nat)
    requires n > 0
    ensures Whole(x, n) <==> x % n == 0
  {
    if x >= n {
      WholeIsMultiple(x - n, n);
      AddMultiple(x - n, n, n);
    }
  }

  lemma {:induction false} WholeSum(x: nat, y: nat, n: nat)
    requires n > 0 && Whole(x, n)
    ensures Whole(x + y, n) <==> Whole(y, n)
  {
    if x > 0 {
      WholeSum(x - n, y, n);
    }
  }

  lemma WholeDifference(x: nat, y: nat, n: nat)
    requires n > 0 && x <= y && Whole(x, n) && Whole(y, n)
    ensures Whole(y - x, n)
  {
    WholeSum(x, y - x, n);
  }

  lemma {:induction false} WholeProduct(k: nat, x: nat, n: nat)
    requires n > 0 && Whole(x, n)
    ensures Whole(k * x, n)
  {
    if k > 0 {
      WholeProduct(k - 1, x, n);
      WholeSum(x, (k - 1) * x, n);
      assert k * x == x + (k - 1) * x;
    }
  }

  /** The loop over depth: packets from `d0` to `d1`. */
  method PackRun(block: array<Scalar>, at: nat, input: seq<Scalar>, ghost g: Goal, ghost id: nat, pads: seq<bool>,
                 idx: seq<int>, d0: nat, d1: nat, packetSize: nat)
    requires packetSize > 0 && d0 <= d1 && Whole(d1 - d0, packetSize)
    requires FourRuns(g.fs, id, d1 - d0, input, pads, idx, d0)
    requires Filled(g, block[..], id) && Fits(g, at, id, d1 - d0)
    modifies block
    ensures Filled(g, block[..], id + (d1 - d0))
  {
    var d := d0;
    while d < d1
      invariant d0 <= d <= d1 && Whole(d1 - d, packetSize)
      invariant Filled(g, block[..], id + (d - d0))
    {
      StoreKernel(block, at + 4 * (d - d0), input, g, id, d1 - d0, pads, idx, d0, d, packetSize);
      d := d + packetSize;
    }
  }

  // ----- Rows and columns of the patch --------------------------------------------------------------------

  /** Where row `r` of column `c` begins. */
  function RowStart(m: Mapper, c: nat, r: nat): nat {
    c * m.PatchColStride() + r * m.patchDepth
  }

  lemma RowStartNext(m: Mapper, c: nat, r: nat, k: nat)
    ensures RowStart(m, c, r + k) == RowStart(m, c, r) + k * m.patchDepth
  {
    assert (r + k) * m.patchDepth == r * m.patchDepth + k * m.patchDepth;
  }

  lemma RowStartEnd(m: Mapper, c: nat)
    ensures RowStart(m, c, m.patchRows) == RowStart(m, c + 1, 0) == c * m.PatchColStride() + m.PatchColStride()
  {
    assert (c + 1) * m.PatchColStride() == c * m.PatchColStride() + m.PatchColStride();
    assert 0 * m.patchDepth == 0;
  }

  /** A position between the starts of rows `r` and `q` of a column lies in a row between them. */
  lemma PositionInRows(m: Mapper, c: nat, r: nat, q: nat, id: nat)
    requires m.Valid() && r < q <= m.patchRows && RowStart(m, c, r) <= id < RowStart(m, c, q)
    ensures ColOf(m, id) == c && r <= RowOf(m, id) < q
  {
    RowStartEnd(m, c);
    RowStartNext(m, c, q, m.patchRows - q);
    MulSign(m.patchRows - q, m.patchDepth);
    MulSign(r, m.patchDepth);
    ColumnRange(m, id, c);
    ColumnRange(m, id, c + 1);
    assert (c + 1) * m.PatchColStride() == RowStart(m, c + 1, 0);
    RowRange(m, id, c, r);
    RowRange(m, id, c, q);
  }

  /** The base index of a row start. */
  function BaseIndex(m: Mapper, b: Base, row: int, col: int): int {
    (b.row + row) * m.patchDepth + (b.col + col) * m.ColInputStride() + b.other
  }

  lemma BaseIndexIsColBase(m: Mapper, b: Base, r: nat, c: nat)
    ensures BaseIndex(m, b, r, c) == RowStart(m, c, r) + ColBase(m, b, c)
  {
    assert (b.row + r) * m.patchDepth == b.row * m.patchDepth + r * m.patchDepth;
  }

  /** Rows `r` to `q` of a column: padding if the column is, or if the one row is, and otherwise in the
      input if their first and their last row are. */
  lemma RunOfRows(m: Mapper, b: Base, c: nat, r: nat, q: nat, d: nat, n: nat)
    requires m.Valid() && BaseFits(m, b) && !m.NonStandard() && r < q <= m.patchRows
    requires RowStart(m, c, r) + d + n <= RowStart(m, c, q)
    requires var pad := Padded(b.col + c, m.inputCols);
             pad || q == r + 1 || (!Padded(b.row + r, m.inputRows) && !Padded(b.row + q - 1, m.inputRows))
    ensures Run(Coeffs(m, b), RowStart(m, c, r) + d, n, m.input,
                Padded(b.col + c, m.inputCols) || Padded(b.row + r, m.inputRows),
                BaseIndex(m, b, r, c) + d - (RowStart(m, c, r) + d))
  {
    if n > 0 {
      var id := RowStart(m, c, r) + d;
      BaseIndexIsColBase(m, b, r, c);
      PositionInRows(m, c, r, q, id);
      PositionInRows(m, c, r, q, id + n - 1);
      if Padded(b.col + c, m.inputCols) || Padded(b.row + r, m.inputRows) {
        PaddedStretch(m, b, id, n);
      } else {
        UnpaddedStretch(m, b, id, n);
      }
    }
  }

  /** The arguments of the loops over one column of the patch. */
  ghost predicate InPatch(m: Mapper, bs: seq<Base>, packetSize: nat, g: Goal) {
    && m.Valid() && !m.NonStandard() && FourBases(m, bs) && packetSize > 0 && Whole(m.patchDepth, packetSize)
    && g.fs == Columns(m, bs)
  }

  // ----- The loops of the fast path -------------------------------------------------------------------------

  /** Positions `startDepth` to `maxDepth` of row `r`, running on to the rows before `q`. */
  method PackRows(block: array<Scalar>, at: nat, m: Mapper, bs: seq<Base>, ghost g: Goal, pads: seq<bool>, c: nat,
                  r: nat, ghost q: nat, startDepth: nat, maxDepth: nat, packetSize: nat)
    requires InPatch(m, bs, packetSize, g) && r < q <= m.patchRows && startDepth <= maxDepth
    requires RowStart(m, c, r) + maxDepth <= RowStart(m, c, q) && Whole(maxDepth - startDepth, packetSize)
    requires |pads| == 4
    requires forall j :: 0 <= j < 4 ==>
        pads[j] == (Padded(bs[j].col + c, m.inputCols) || Padded(bs[j].row + r, m.inputRows))
    requires q > r + 1 ==> forall j :: 0 <= j < 4 ==> !pads[j] && !Padded(bs[j].row + q - 1, m.inputRows)
    requires Filled(g, block[..], RowStart(m, c, r) + startDepth)
    requires Fits(g, at, RowStart(m, c, r) + startDepth, maxDepth - startDepth)
    modifies block
    ensures Filled(g, block[..], RowStart(m, c, r) + maxDepth)
  {
    ghost var n, id := maxDepth - startDepth, RowStart(m, c, r) + startDepth;
    RunOfRows(m, bs[0], c, r, q, startDepth, n);
    RunOfRows(m, bs[1], c, r, q, startDepth, n);
    RunOfRows(m, bs[2], c, r, q, startDepth, n);
    RunOfRows(m, bs[3], c, r, q, startDepth, n);
    var idx := [BaseIndex(m, bs[0], r, c), BaseIndex(m, bs[1], r, c), BaseIndex(m, bs[2], r, c),
                BaseIndex(m, bs[3], r, c)];
    PackRun(block, at, m.input, g, id, pads, idx, startDepth, maxDepth, packetSize);
  }

  ghost predicate PadColsOf(m: Mapper, bs: seq<Base>, c: nat, padCols: seq<bool>) {
    |bs| == 4 && |padCols| == 4 && forall j :: 0 <= j < 4 ==> padCols[j] == Padded(bs[j].col + c, m.inputCols)
  }

  /** One row: whole packets up to the end of the row or of what is `left`. */
  method PackRow(block: array<Scalar>, at: nat, m: Mapper, bs: seq<Base>, ghost g: Goal, padCols: seq<bool>, c: nat,
                 r: nat, startDepth: nat, left: nat, packetSize: nat) returns (n: nat)
    requires InPatch(m, bs, packetSize, g) && r < m.patchRows && startDepth < m.patchDepth
    requires PadColsOf(m, bs, c, padCols)
    requires Whole(startDepth, packetSize) && Whole(left, packetSize)
    requires Filled(g, block[..], RowStart(m, c, r) + startDepth) && Fits(g, at, RowStart(m, c, r) + startDepth, left)
    modifies block
    ensures n <= left && Whole(left - n, packetSize)
    ensures var id := RowStart(m, c, r) + startDepth;
            id + n == Min(id + left, RowStart(m, c, r + 1)) && Filled(g, block[..], id + n)
  {
    var pads := [padCols[0] || Padded(bs[0].row + r, m.inputRows), padCols[1] || Padded(bs[1].row + r, m.inputRows),
                 padCols[2] || Padded(bs[2].row + r, m.inputRows), padCols[3] || Padded(bs[3].row + r, m.inputRows)];
    var maxDepth := Min(startDepth + left, m.patchDepth);
    n := maxDepth - startDepth;
    RowStartNext(m, c, r, 1);
    WholeDifference(startDepth, m.patchDepth, packetSize);
    WholeDifference(n, left, packetSize);
    PackRows(block, at, m, bs, g, pads, c, r, r + 1, startDepth, maxDepth, packetSize);
  }

  /** Rows `startRow` to `maxRow` of a column, one by one. */
  method PackRowByRow(block: array<Scalar>, at: nat, m: Mapper, bs: seq<Base>, ghost g: Goal, padCols: seq<bool>,
                      c: nat, startRow: nat, maxRow: nat, startDepth: nat, left: nat, packetSize: nat) returns (n: nat)
    requires InPatch(m, bs, packetSize, g) && startRow < maxRow <= m.patchRows && startDepth < m.patchDepth
        && PadColsOf(m, bs, c, padCols)
    requires Whole(startDepth, packetSize) && Whole(left, packetSize)
    requires RowStart(m, c, maxRow - 1) <= RowStart(m, c, startRow) + startDepth + left
    requires Filled(g, block[..], RowStart(m, c, startRow) + startDepth)
        && Fits(g, at, RowStart(m, c, startRow) + startDepth, left)
    modifies block
    ensures n <= left && Whole(left - n, packetSize)
    ensures var id := RowStart(m, c, startRow) + startDepth;
            id + n == Min(id + left, RowStart(m, c, maxRow)) && Filled(g, block[..], id + n)
  {
    ghost var id := RowStart(m, c, startRow) + startDepth;
    n := 0;
    for r := startRow to maxRow
      invariant n <= left && Whole(left - n, packetSize)
      invariant id + n == if r == startRow then id else Min(id + left, RowStart(m, c, r))
      invariant Filled(g, block[..], id + n)
    {
      var depth := if r == startRow then startDepth else 0;
      RowBegins(m, c, startRow, startDepth, r, maxRow, left, n);
      var k := PackRow(block, at + 4 * n, m, bs, g, padCols, c, r, depth, left - n, packetSize);
      n := n + k;
    }
  }

  /** Row `r` begins where the rows before it, from depth `startDepth` of `startRow` on, end. */
  lemma RowBegins(m: Mapper, c: nat, startRow: nat, startDepth: nat, r: nat, maxRow: nat, left: nat, n: nat)
    requires startRow <= r < maxRow
    requires RowStart(m, c, maxRow - 1) <= RowStart(m, c, startRow) + startDepth + left
    requires var id := RowStart(m, c, startRow) + startDepth;
             id + n == if r == startRow then id else Min(id + left, RowStart(m, c, r))
    ensures RowStart(m, c, startRow) + startDepth + n == RowStart(m, c, r) + if r == startRow then startDepth else 0
  {
    RowBefore(m, c, r, maxRow);
  }

  lemma RowBefore(m: Mapper, c: nat, r: nat, q: nat)
    requires r < q
    ensures RowStart(m, c, r) <= RowStart(m, c, q - 1)
  {
    RowStartNext(m, c, r, q - 1 - r);
    assert (q - 1 - r) * m.patchDepth >= 0;
  }

  predicate Squeezable(m: Mapper, bs: seq<Base>, c: nat, startRow: nat, maxRow: nat) {
    |bs| == 4 && forall j :: 0 <= j < 4 ==>
      && !Padded(bs[j].col + c, m.inputCols)
      && !Padded(bs[j].row + startRow, m.inputRows) && !Padded(bs[j].row + maxRow - 1, m.inputRows)
  }

  /** The same rows in one go, when they lie next to each other in the input. */
  method PackSqueezed(block: array<Scalar>, at: nat, m: Mapper, bs: seq<Base>, ghost g: Goal, c: nat, startRow: nat,
                      maxRow: nat, startDepth: nat, left: nat, packetSize: nat) returns (n: nat)
    requires InPatch(m, bs, packetSize, g) && startRow < maxRow <= m.patchRows && startDepth < m.patchDepth
    requires Squeezable(m, bs, c, startRow, maxRow)
    requires Whole(startDepth, packetSize) && Whole(left, packetSize)
    requires Filled(g, block[..], RowStart(m, c, startRow) + startDepth)
        && Fits(g, at, RowStart(m, c, startRow) + startDepth, left)
    modifies block
    ensures n <= left && Whole(left - n, packetSize)
    ensures var id := RowStart(m, c, startRow) + startDepth;
            id + n == Min(id + left, RowStart(m, c, maxRow)) && Filled(g, block[..], id + n)
  {
    var rows := maxRow - startRow;
    MulAtLeast(rows, m.patchDepth);
    var squeezeLength := rows * m.patchDepth - startDepth;
    var maxDepth := startDepth + Min(left, squeezeLength);
    n := maxDepth - startDepth;
    RowStartNext(m, c, startRow, rows);
    WholeProduct(rows, m.patchDepth, packetSize);
    WholeDifference(startDepth, rows * m.patchDepth, packetSize);
    WholeDifference(n, left, packetSize);
    PackRows(block, at, m, bs, g, [false, false, false, false], c, startRow, maxRow, startDepth, maxDepth, packetSize);
  }

  /** The last of the positions to fill, or the first one when there are none. */
  function LastId(off: nat, peeledK: nat): nat { off + if peeledK == 0 then 0 else peeledK - 1 }

  function MaxCol(m: Mapper, off: nat, peeledK: nat): nat
    requires m.Valid() && m.PatchColStride() > 0
  {
    Min(1 + LastId(off, peeledK) / m.PatchColStride(), m.patchCols)
  }

  function MaxRow(m: Mapper, off: nat, peeledK: nat, c: nat): int
    requires m.Valid()
  {
    Min(1 + (LastId(off, peeledK) - c * m.PatchColStride()) / m.patchDepth, m.patchRows)
  }

  /** A row that begins at or before position `c * stride + x` is at most the row of that position. */
  lemma RowQuotient(x: int, d: nat, r: nat)
    requires d > 0
    ensures r * d <= x <==> r <= x / d
  {
    assert x == (x / d) * d + x % d;
    assert (x / d + 1) * d == (x / d) * d + d;
    if r <= x / d {
      MulMono(r, x / d, d);
    } else {
      MulMono(x / d + 1, r, d);
    }
  }

  /** `MaxRow` is past every row to fill, and the row before it is one of them. */
  lemma MaxRowBounds(m: Mapper, off: nat, peeledK: nat, c: nat, startRow: nat)
    requires m.Valid() && startRow < m.patchRows && RowStart(m, c, startRow) <= LastId(off, peeledK)
    ensures var q := MaxRow(m, off, peeledK, c);
            && startRow < q <= m.patchRows && RowStart(m, c, q - 1) <= LastId(off, peeledK)
            && (q == m.patchRows || RowStart(m, c, q) > LastId(off, peeledK))
  {
    var x, q := LastId(off, peeledK) - c * m.PatchColStride(), MaxRow(m, off, peeledK, c);
    RowQuotient(x, m.patchDepth, startRow);
    RowQuotient(x, m.patchDepth, q - 1);
    RowQuotient(x, m.patchDepth, q);
  }

  /** Filling the rows before `MaxRow` fills what there is to fill of the column. */
  lemma MaxRowFillsColumn(m: Mapper, off: nat, peeledK: nat, c: nat, q: nat)
    requires m.Valid() && q <= m.patchRows && (q == m.patchRows || RowStart(m, c, q) > LastId(off, peeledK))
    ensures Min(off + peeledK, RowStart(m, c, q)) == Min(off + peeledK, RowStart(m, c + 1, 0))
  {
    RowStartEnd(m, c);
    RowBefore(m, c, q, m.patchRows + 1);
  }

  /** Where a column of the fast path begins: at the first position to fill, or at its first row. */
  ghost predicate ColumnBegins(m: Mapper, off: nat, peeledK: nat, c: nat, startRow: nat, startDepth: nat, id: nat)
    requires m.Valid()
  {
    && startRow < m.patchRows && startDepth < m.patchDepth && id == RowStart(m, c, startRow) + startDepth
    && RowStart(m, c, startRow) <= LastId(off, peeledK)
  }

  /** One column of the patch: squeezed if no row of it is padded for any of the four patches. */
  method PackColumn(block: array<Scalar>, at: nat, m: Mapper, bs: seq<Base>, ghost g: Goal, off: nat, peeledK: nat,
                    c: nat, startRow: nat, startDepth: nat, k: nat, packetSize: nat) returns (n: nat)
    requires InPatch(m, bs, packetSize, g) && k <= peeledK
        && ColumnBegins(m, off, peeledK, c, startRow, startDepth, off + k)
    requires Whole(startDepth, packetSize) && Whole(peeledK - k, packetSize)
    requires Filled(g, block[..], off + k) && Fits(g, at, off + k, peeledK - k)
    modifies block
    ensures k + n <= peeledK && Whole(peeledK - k - n, packetSize)
    ensures off + k + n == Min(off + peeledK, RowStart(m, c + 1, 0)) && Filled(g, block[..], off + k + n)
  {
    MaxRowBounds(m, off, peeledK, c, startRow);
    var maxRow := MaxRow(m, off, peeledK, c);
    var left := peeledK - k;
    assert off + k + left == off + peeledK;
    if (packetSize == 2 ==> m.rowStrides == 1) && Squeezable(m, bs, c, startRow, maxRow) {
      n := PackSqueezed(block, at, m, bs, g, c, startRow, maxRow, startDepth, left, packetSize);
    } else {
      var padCols := [Padded(bs[0].col + c, m.inputCols), Padded(bs[1].col + c, m.inputCols),
                      Padded(bs[2].col + c, m.inputCols), Padded(bs[3].col + c, m.inputCols)];
      n := PackRowByRow(block, at, m, bs, g, padCols, c, startRow, maxRow, startDepth, left, packetSize);
    }
    MaxRowFillsColumn(m, off, peeledK, c, maxRow);
    assert left - n == peeledK - k - n;
  }

  /** The position reached once everything before `x` is filled, between `off` and `end`. */
  function Reached(off: nat, end: nat, x: nat): nat { if x < off then off else if x > end then end else x }

  /** Row, column and depth of the first position to fill. */
  lemma FirstPosition(m: Mapper, off: nat)
    requires m.Valid()
    ensures off == RowStart(m, ColOf(m, off), RowOf(m, off)) + off % m.patchDepth
    ensures off < RowStart(m, ColOf(m, off) + 1, 0)
    ensures 0 <= RowOf(m, off) < m.patchRows
  {
    RowInPatch(m, off);
    var c, r := ColOf(m, off), RowOf(m, off);
    assert off == OffsetOf(m, off) * m.patchDepth + off % m.patchDepth;
    assert (c * m.patchRows + r) * m.patchDepth == (c * m.patchRows) * m.patchDepth + r * m.patchDepth;
    assert (c * m.patchRows) * m.patchDepth == c * m.PatchColStride();
    ColumnRange(m, off, c + 1);
  }

  /** A later column begins with its first row, as long as something is left to fill. */
  lemma LaterColumn(m: Mapper, off: nat, peeledK: nat, c: nat)
    requires m.Valid() && c > ColOf(m, off) && c * m.PatchColStride() <= LastId(off, peeledK)
    ensures off < RowStart(m, c, 0)
    ensures ColumnBegins(m, off, peeledK, c, 0, 0, RowStart(m, c, 0))
    ensures Reached(off, off + peeledK, RowStart(m, c, 0)) == RowStart(m, c, 0)
  {
    ColumnRange(m, off, c);
    assert RowStart(m, c, 0) == c * m.PatchColStride();
  }

  lemma BeforeMaxCol(m: Mapper, off: nat, peeledK: nat, c: nat)
    requires m.Valid() && m.PatchColStride() > 0 && c < MaxCol(m, off, peeledK)
    ensures c * m.PatchColStride() <= LastId(off, peeledK)
  {
    var x, n := LastId(off, peeledK), m.PatchColStride();
    assert x == (x / n) * n + x % n;
    MulMono(c, x / n, n);
  }

  /** After the last column everything is filled. */
  lemma AllColumnsFill(m: Mapper, off: nat, peeledK: nat)
    requires m.Valid() && m.PatchColStride() > 0 && off + peeledK <= m.PatchSize()
    ensures Reached(off, off + peeledK, RowStart(m, MaxCol(m, off, peeledK), 0)) == off + peeledK
  {
    var x, n, c := LastId(off, peeledK), m.PatchColStride(), MaxCol(m, off, peeledK);
    assert x == (x / n) * n + x % n;
    assert (x / n + 1) * n == (x / n) * n + n;
    assert m.patchCols * n == m.PatchSize();
    assert RowStart(m, c, 0) == c * n;
  }

  lemma FirstBeforeMax(m: Mapper, off: nat, peeledK: nat)
    requires m.Valid() && m.PatchColStride() > 0 && off + peeledK <= m.PatchSize()
    ensures ColOf(m, off) <= MaxCol(m, off, peeledK)
  {
    var x, n := LastId(off, peeledK), m.PatchColStride();
    assert x == (x / n) * n + x % n;
    assert (x / n + 1) * n == (x / n) * n + n;
    ColumnRange(m, off, x / n + 1);
    assert m.patchCols * n == m.PatchSize();
    assert (m.patchCols + 1) * n == m.PatchSize() + n;
    ColumnRange(m, off, m.patchCols + 1);
  }

  /** What a step of the column loop starts from. */
  lemma ColumnStep(m: Mapper, off: nat, peeledK: nat, c: nat, k: nat)
    requires m.Valid() && m.PatchColStride() > 0 && ColOf(m, off) <= c < MaxCol(m, off, peeledK) && k <= peeledK
    requires off + k == Reached(off, off + peeledK, RowStart(m, c, 0))
    ensures RowOf(m, off) >= 0 && off < RowStart(m, c + 1, 0)
    ensures ColumnBegins(m, off, peeledK, c, if c == ColOf(m, off) then RowOf(m, off) else 0,
                         if c == ColOf(m, off) then off % m.patchDepth else 0, off + k)
  {
    FirstPosition(m, off);
    BeforeMaxCol(m, off, peeledK, c);
    if c == ColOf(m, off) {
      ColumnRange(m, off, c);
      assert RowStart(m, c, 0) == c * m.PatchColStride();
    } else {
      LaterColumn(m, off, peeledK, c);
      RowStartEnd(m, c);
    }
  }

  /** Packets that never leave a row: column by column through the patch. Fills exactly `peeledK`. */
  method FastPath(block: array<Scalar>, at: nat, m: Mapper, bs: seq<Base>, ghost g: Goal, off: nat, peeledK: nat,
                  packetSize: nat)
    returns (k: nat)
    requires InPatch(m, bs, packetSize, g) && Whole(off, packetSize) && Whole(peeledK, packetSize)
        && off + peeledK <= m.PatchSize()
    requires Filled(g, block[..], off) && Fits(g, at, off, peeledK)
    modifies block
    ensures k == peeledK && Filled(g, block[..], off + k)
  {
    k := 0;
    MulAtLeast(m.patchRows, m.patchDepth);
    RowInPatch(m, off);
    FirstBeforeMax(m, off, peeledK);
    FirstReached(m, off, peeledK);
    WholeRemainder(off, m.patchDepth, packetSize);
    var startCol, maxCol := ColOf(m, off), MaxCol(m, off, peeledK);
    for c := startCol to maxCol
      invariant k <= peeledK && Whole(peeledK - k, packetSize)
          && off + k == Reached(off, off + peeledK, RowStart(m, c, 0))
      invariant Filled(g, block[..], off + k)
    {
      ColumnStep(m, off, peeledK, c, k);
      var startRow := if c == startCol then RowOf(m, off) else 0;
      var startDepth := if c == startCol then off % m.patchDepth else 0;
      var n := PackColumn(block, at + 4 * k, m, bs, g, off, peeledK, c, startRow, startDepth, k, packetSize);
      k := k + n;
    }
    AllColumnsFill(m, off, peeledK);
  }

  lemma FirstReached(m: Mapper, off: nat, peeledK: nat)
    requires m.Valid()
    ensures off == Reached(off, off + peeledK, RowStart(m, ColOf(m, off), 0))
  {
    ColumnRange(m, off, ColOf(m, off));
    assert RowStart(m, ColOf(m, off), 0) == ColOf(m, off) * m.PatchColStride();
  }

  lemma WholeRemainder(x: nat, d: nat, n: nat)
    requires d > 0 && n > 0 && Whole(d, n) && Whole(x, n)
    ensures Whole(x % d, n)
  {
    var q: nat := x / d;
    var y: nat := q * d;
    assert x == y + x % d;
    WholeProduct(q, d, n);
    WholeSum(y, x % d, n);
  }

  // ----- The other paths --------------------------------------------------------------------------------------

  /** Packets that may leave a row or a column, loaded one by one. */
  method StandardPath(block: array<Scalar>, at: nat, m: Mapper, bs: seq<Base>, ghost g: Goal, off: nat, peeledK: nat,
                      packetSize: nat, masked: bool) returns (k: nat)
    requires m.Valid() && !m.NonStandard() && FourBases(m, bs) && g.fs == Columns(m, bs)
    requires packetSize > 1 && m.patchDepth % packetSize != 0 && Whole(peeledK, packetSize)
    requires Filled(g, block[..], off) && Fits(g, at, off, peeledK)
    modifies block
    ensures k == peeledK && Filled(g, block[..], off + k)
  {
    k := 0;
    while k < peeledK
      invariant k <= peeledK && Whole(peeledK - k, packetSize) && Filled(g, block[..], off + k)
    {
      var p0 := LoadPacketStandard(m, off + k, bs[0], packetSize, masked);
      var p1 := LoadPacketStandard(m, off + k, bs[1], packetSize, masked);
      var p2 := LoadPacketStandard(m, off + k, bs[2], packetSize, masked);
      var p3 := LoadPacketStandard(m, off + k, bs[3], packetSize, masked);
      StorePackets(block, at + 4 * k, g, off + k, [p0, p1, p2, p3], packetSize);
      k := k + packetSize;
    }
  }

  /** The coefficients of one position of four patches. */
  method StoreCoefficients(block: array<Scalar>, at: nat, ghost g: Goal, ghost id: nat, x: seq<Scalar>)
    requires Filled(g, block[..], id) && Fits(g, at, id, 1)
    requires |x| == 4 && forall j :: 0 <= j < 4 ==> x[j] == g.fs[j](id)
    modifies block
    ensures Filled(g, block[..], id + 1)
  {
    FilledMore(g, block[..], at, id, 1);
    assert x == Packed(g.fs, id, 1);
    Store(block, at, x);
  }

  /** What the packets leave over, coefficient by coefficient. */
  method PackRemainder(block: array<Scalar>, at: nat, m: Mapper, bs: seq<Base>, ghost g: Goal, off: nat, from: nat,
                       depth: nat)
    requires m.Valid() && FourBases(m, bs) && g.fs == Columns(m, bs) && from <= depth
    requires Filled(g, block[..], off + from) && Fits(g, at, off + from, depth - from)
    modifies block
    ensures Filled(g, block[..], off + depth)
  {
    for k := from to depth
      invariant Filled(g, block[..], off + k)
    {
      var x: seq<Scalar>;
      if !m.NonStandard() {
        StandardIsCoeff(m, off + k, bs[0]);
        StandardIsCoeff(m, off + k, bs[1]);
        StandardIsCoeff(m, off + k, bs[2]);
        StandardIsCoeff(m, off + k, bs[3]);
        x := [LoadCoeffStandard(m, off + k, bs[0]), LoadCoeffStandard(m, off + k, bs[1]),
              LoadCoeffStandard(m, off + k, bs[2]), LoadCoeffStandard(m, off + k, bs[3])];
      } else {
        x := [LoadCoeff(m, off + k, bs[0]), LoadCoeff(m, off + k, bs[1]), LoadCoeff(m, off + k, bs[2]),
              LoadCoeff(m, off + k, bs[3])];
      }
      StoreCoefficients(block, at + 4 * (k - from), g, off + k, x);
    }
  }

  /** Which packet sizes the fast path knows how to transpose four columns of. */
  predicate Vectorized(packetSize: nat) { packetSize > 1 && (packetSize % 4 == 0 || packetSize == 2) }

  /** Packets of a patch whose depth is a multiple of the packet size must begin at such a multiple. */
  ghost predicate DepthOffsetAligned(m: Mapper, off: nat, packetSize: nat) {
    && packetSize > 0
    && (!m.NonStandard() && Vectorized(packetSize) && m.patchDepth % packetSize == 0 ==> off % packetSize == 0)
  }

  /** Four columns: as many whole packets as there are, then the rest. */
  method PackFour(block: array<Scalar>, at: nat, m: Mapper, bs: seq<Base>, ghost g: Goal, off: nat, depth: nat,
                  packetSize: nat, masked: bool)
    requires m.Valid() && FourBases(m, bs) && g.fs == Columns(m, bs)
    requires DepthOffsetAligned(m, off, packetSize) && off + depth <= m.PatchSize()
    requires Filled(g, block[..], off) && Fits(g, at, off, depth)
    modifies block
    ensures Filled(g, block[..], off + depth)
  {
    var peeledK := (depth / packetSize) * packetSize;
    Peeled(depth, packetSize);
    var k := 0;
    if Vectorized(packetSize) && !m.NonStandard() {
      if m.patchDepth % packetSize == 0 {
        WholeIsMultiple(off, packetSize);
        WholeIsMultiple(m.patchDepth, packetSize);
        k := FastPath(block, at, m, bs, g, off, peeledK, packetSize);
      } else {
        k := StandardPath(block, at, m, bs, g, off, peeledK, packetSize, masked);
      }
    }
    PackRemainder(block, at + 4 * k, m, bs, g, off, k, depth);
  }

  lemma Peeled(depth: nat, n: nat)
    requires n > 0
    ensures 0 <= (depth / n) * n <= depth && Whole((depth / n) * n, n)
  {
    assert depth == (depth / n) * n + depth % n;
    MultipleMod(depth / n, n);
    WholeIsMultiple((depth / n) * n, n);
  }

  // ----- The whole block --------------------------------------------------------------------------------------

  /** A view of the virtual matrix: positions from `depthOffset` on, patches from `colOffset` on, `cols`
      of them, in an input of `images` images. */
  datatype SubMapper = SubMapper(m: Mapper, depthOffset: nat, colOffset: nat, cols: nat, images: nat)
  {
    ghost predicate Valid() {
      && m.Valid() && images > 0 && |m.input| == images * m.ImageSize()
      && (m.batched ==> colOffset + cols <= images * m.numPatches)
    }

    /** The base of column `j`. */
    function BaseOf(j: nat): (b: Base)
      requires Valid() && j < cols
      ensures BaseFits(m, b)
    {
      BaseIndicesFit(m, colOffset + j, images);
      BaseIndices(m, colOffset + j)
    }
  }

  function BasesOf(rhs: SubMapper, j: nat): (bs: seq<Base>)
    requires rhs.Valid() && j + 4 <= rhs.cols
    ensures FourBases(rhs.m, bs)
  {
    [rhs.BaseOf(j), rhs.BaseOf(j + 1), rhs.BaseOf(j + 2), rhs.BaseOf(j + 3)]
  }

  /** All columns of the view. */
  function AllColumns(rhs: SubMapper): (fs: seq<nat -> Scalar>)
    requires rhs.Valid()
    ensures |fs| == rhs.cols
  {
    seq(rhs.cols, j requires 0 <= j < rhs.cols => Coeffs(rhs.m, rhs.BaseOf(j)))
  }

  lemma FourOfAll(rhs: SubMapper, j: nat)
    requires rhs.Valid() && j + 4 <= rhs.cols
    ensures AllColumns(rhs)[j..j + 4] == Columns(rhs.m, BasesOf(rhs, j))
  {
  }

  /** The naive packing of `groups` groups of four columns. */
  function Groups(fs: seq<nat -> Scalar>, off: nat, depth: nat, groups: nat): seq<Scalar>
    requires 4 * groups <= |fs|
  {
    if groups == 0 then [] else Groups(fs, off, depth, groups - 1) + Packed(fs[4 * groups - 4..4 * groups], off, depth)
  }

  /** Columns `lo` to `hi`, one after the other. */
  function Singles(fs: seq<nat -> Scalar>, off: nat, depth: nat, lo: nat, hi: nat): seq<Scalar>
    requires lo <= hi <= |fs|
    decreases hi
  {
    if lo == hi then [] else Singles(fs, off, depth, lo, hi - 1) + Lanes(fs[hi - 1], off, depth)
  }

  /** The naive packing of columns: groups of four interleaved, then what is left over. */
  function NaivePacking(fs: seq<nat -> Scalar>, off: nat, depth: nat): seq<Scalar> {
    Groups(fs, off, depth, |fs| / 4) + Singles(fs, off, depth, 4 * (|fs| / 4), |fs|)
  }

  lemma {:induction false} GroupsSize(fs: seq<nat -> Scalar>, off: nat, depth: nat, groups: nat)
    requires 4 * groups <= |fs|
    ensures |Groups(fs, off, depth, groups)| == (4 * groups) * depth
  {
    if groups > 0 {
      GroupsSize(fs, off, depth, groups - 1);
      assert (4 * groups) * depth == (4 * (groups - 1)) * depth + 4 * depth;
    }
  }

  lemma {:induction false} SinglesSize(fs: seq<nat -> Scalar>, off: nat, depth: nat, lo: nat, hi: nat)
    requires lo <= hi <= |fs|
    ensures |Singles(fs, off, depth, lo, hi)| == (hi - lo) * depth
    decreases hi
  {
    if lo < hi {
      SinglesSize(fs, off, depth, lo, hi - 1);
      assert (hi - lo) * depth == (hi - 1 - lo) * depth + depth;
    }
  }

  lemma NaiveSize(fs: seq<nat -> Scalar>, off: nat, depth: nat)
    ensures |NaivePacking(fs, off, depth)| == |fs| * depth
  {
    var n := 4 * (|fs| / 4);
    GroupsSize(fs, off, depth, |fs| / 4);
    SinglesSize(fs, off, depth, n, |fs|);
    assert n * depth + (|fs| - n) * depth == |fs| * depth;
  }

  lemma {:induction false} GroupsPrefix(fs: seq<nat -> Scalar>, off: nat, depth: nat, a: nat, b: nat)
    requires a <= b && 4 * b <= |fs|
    ensures Groups(fs, off, depth, a) <= Groups(fs, off, depth, b)
  {
    if a < b {
      GroupsPrefix(fs, off, depth, a, b - 1);
    }
  }

  lemma LastGroupElement(fs: seq<nat -> Scalar>, off: nat, depth: nat, k: nat, g: nat, c: nat)
    requires 4 * g + 4 <= |fs| && k < depth && c < 4
    ensures var at := |Groups(fs, off, depth, g)| + 4 * k + c;
            at < |Groups(fs, off, depth, g + 1)| && Groups(fs, off, depth, g + 1)[at] == fs[4 * g + c](off + k)
  {
    var group := fs[4 * g..4 * g + 4];
    assert group == fs[4 * (g + 1) - 4..4 * (g + 1)];
    PackedElement(group, off, depth, k, c);
    assert group[c] == fs[4 * g + c];
  }

  lemma GroupElement(fs: seq<nat -> Scalar>, off: nat, depth: nat, groups: nat, k: nat, g: nat, c: nat)
    requires g < groups && 4 * groups <= |fs| && k < depth && c < 4
    ensures var at := |Groups(fs, off, depth, g)| + 4 * k + c;
            at < |Groups(fs, off, depth, groups)| && Groups(fs, off, depth, groups)[at] == fs[4 * g + c](off + k)
  {
    LastGroupElement(fs, off, depth, k, g, c);
    GroupsPrefix(fs, off, depth, g + 1, groups);
  }

  lemma PackedElement(fs: seq<nat -> Scalar>, id: nat, n: nat, k: nat, c: nat)
    requires |fs| == 4 && k < n && c < 4
    ensures Packed(fs, id, n)[4 * k + c] == fs[c](id + k)
  {
    var i := 4 * k + c;
    assert i % 4 == c && i / 4 == k;
  }

  lemma {:induction false} SingleElement(fs: seq<nat -> Scalar>, off: nat, depth: nat, lo: nat, hi: nat, k: nat, j: nat)
    requires lo <= j < hi <= |fs| && k < depth
    ensures var at := |Singles(fs, off, depth, lo, j)| + k;
            at < |Singles(fs, off, depth, lo, hi)| && Singles(fs, off, depth, lo, hi)[at] == fs[j](off + k)
    decreases hi
  {
    if j < hi - 1 {
      SingleElement(fs, off, depth, lo, hi - 1, k, j);
    }
  }

  /** Where row `k` of column `j` goes: four columns interleaved, or a column of its own. */
  function PlaceOf(cols: nat, depth: nat, k: nat, j: nat): int {
    if j < 4 * (cols / 4) then (4 * (j / 4)) * depth + 4 * k + j % 4 else j * depth + k
  }

  lemma PlaceInGroups(fs: seq<nat -> Scalar>, off: nat, depth: nat, k: nat, j: nat)
    requires k < depth && j < 4 * (|fs| / 4)
    ensures var head, at := Groups(fs, off, depth, |fs| / 4), (4 * (j / 4)) * depth + 4 * k + j % 4;
            0 <= at < |head| && head[at] == fs[j](off + k)
  {
    GroupElement(fs, off, depth, |fs| / 4, k, j / 4, j % 4);
    GroupsSize(fs, off, depth, j / 4);
  }

  lemma PlaceInSingles(fs: seq<nat -> Scalar>, off: nat, depth: nat, k: nat, j: nat)
    requires k < depth && 4 * (|fs| / 4) <= j < |fs|
    ensures var n := 4 * (|fs| / 4);
            var tail, at := Singles(fs, off, depth, n, |fs|), j * depth + k - n * depth;
            0 <= at < |tail| && tail[at] == fs[j](off + k)
  {
    var n := 4 * (|fs| / 4);
    SingleElement(fs, off, depth, n, |fs|, k, j);
    SinglesSize(fs, off, depth, n, j);
    assert n * depth + (j - n) * depth == j * depth;
  }

  /** Every coefficient is in the naive packing, at its place. */
  lemma NaivePackingElement(fs: seq<nat -> Scalar>, off: nat, depth: nat, k: nat, j: nat)
    requires k < depth && j < |fs|
    ensures 0 <= PlaceOf(|fs|, depth, k, j) < |NaivePacking(fs, off, depth)|
    ensures NaivePacking(fs, off, depth)[PlaceOf(|fs|, depth, k, j)] == fs[j](off + k)
  {
    if j < 4 * (|fs| / 4) {
      PlaceInGroups(fs, off, depth, k, j);
    } else {
      PlaceInSingles(fs, off, depth, k, j);
      GroupsSize(fs, off, depth, |fs| / 4);
    }
  }

  /** Output (`n`, `c`, `r`) and kernel element (`pc`, `pr`, `d`) belong to the block. */
  predicate InBlock(rhs: SubMapper, depth: nat, n: nat, c: nat, r: nat, pc: nat, pr: nat, d: nat) {
    && n < rhs.images && IsPatch(rhs.m, n, c, r) && IsPosition(rhs.m, pr, d)
    && 0 <= PositionAt(rhs.m, pc, pr, d) - rhs.depthOffset < depth
    && 0 <= PatchAt(rhs.m, n, c, r) - rhs.colOffset < rhs.cols
  }

  /** The value that the convolution reads there is where the packing puts it: four columns side by side,
      row after row, and the columns that are left over one after the other. */
  ghost predicate PacksRead(rhs: SubMapper, depth: nat, block: seq<Scalar>, n: nat, c: nat, r: nat,
                            pc: nat, pr: nat, d: nat)
    requires InBlock(rhs, depth, n, c, r, pc, pr, d)
  {
    var k, j := PositionAt(rhs.m, pc, pr, d) - rhs.depthOffset, PatchAt(rhs.m, n, c, r) - rhs.colOffset;
    var place := if j < rhs.cols - rhs.cols % 4 then (j - j % 4) * depth + 4 * k + j % 4 else j * depth + k;
    0 <= place < |block| && Reads(rhs.m, n, c, r, pc, pr, d, block[place])
  }

  /** The block is what the convolution reads. */
  ghost predicate PacksConvolution(rhs: SubMapper, depth: nat, block: seq<Scalar>) {
    forall n: nat, c: nat, r: nat, pc: nat, pr: nat, d: nat ::
      InBlock(rhs, depth, n, c, r, pc, pr, d) ==> PacksRead(rhs, depth, block, n, c, r, pc, pr, d)
  }

  lemma PlaceInBlock(cols: nat, depth: nat, k: nat, j: nat)
    requires j < cols
    ensures PlaceOf(cols, depth, k, j)
         == if j < cols - cols % 4 then (j - j % 4) * depth + 4 * k + j % 4 else j * depth + k
  {
    assert j - j % 4 == 4 * (j / 4) && cols - cols % 4 == 4 * (cols / 4);
  }

  lemma ColumnReads(rhs: SubMapper, n: nat, c: nat, r: nat, pc: nat, pr: nat, d: nat, k: nat, j: nat)
    requires rhs.Valid() && n < rhs.images && IsPatch(rhs.m, n, c, r) && IsPosition(rhs.m, pr, d) && j < rhs.cols
    requires PositionAt(rhs.m, pc, pr, d) == rhs.depthOffset + k && PatchAt(rhs.m, n, c, r) == rhs.colOffset + j
    ensures Reads(rhs.m, n, c, r, pc, pr, d, AllColumns(rhs)[j](rhs.depthOffset + k))
  {
    PatchMatrix(rhs.m, rhs.images, n, c, r, pc, pr, d);
  }

  lemma NaivePackingReads(rhs: SubMapper, depth: nat, before: seq<Scalar>, n: nat, c: nat, r: nat,
                          pc: nat, pr: nat, d: nat)
    requires rhs.Valid() && |NaivePacking(AllColumns(rhs), rhs.depthOffset, depth)| <= |before|
    requires InBlock(rhs, depth, n, c, r, pc, pr, d)
    ensures PacksRead(rhs, depth, Overwrite(before, 0, NaivePacking(AllColumns(rhs), rhs.depthOffset, depth)),
                      n, c, r, pc, pr, d)
  {
    var k, j := PositionAt(rhs.m, pc, pr, d) - rhs.depthOffset, PatchAt(rhs.m, n, c, r) - rhs.colOffset;
    NaivePackingElement(AllColumns(rhs), rhs.depthOffset, depth, k, j);
    ColumnReads(rhs, n, c, r, pc, pr, d, k, j);
    PlaceInBlock(rhs.cols, depth, k, j);
  }

  /** The naive packing is the convolution's. */
  lemma NaivePackingIsConvolution(rhs: SubMapper, depth: nat, before: seq<Scalar>)
    requires rhs.Valid() && |NaivePacking(AllColumns(rhs), rhs.depthOffset, depth)| <= |before|
    ensures PacksConvolution(rhs, depth, Overwrite(before, 0, NaivePacking(AllColumns(rhs), rhs.depthOffset, depth)))
  {
    forall n: nat, c: nat, r: nat, pc: nat, pr: nat, d: nat | InBlock(rhs, depth, n, c, r, pc, pr, d)
      ensures PacksRead(rhs, depth, Overwrite(before, 0, NaivePacking(AllColumns(rhs), rhs.depthOffset, depth)),
                        n, c, r, pc, pr, d)
    {
      NaivePackingReads(rhs, depth, before, n, c, r, pc, pr, d);
    }
  }

  lemma {:induction false} SinglesGrow(fs: seq<nat -> Scalar>, off: nat, depth: nat, lo: nat, j: nat, hi: nat)
    requires lo <= j <= hi <= |fs|
    ensures |Singles(fs, off, depth, lo, j)| <= |Singles(fs, off, depth, lo, hi)|
    decreases hi
  {
    if j < hi {
      SinglesGrow(fs, off, depth, lo, j, hi - 1);
    }
  }

  lemma GroupsNext(fs: seq<nat -> Scalar>, off: nat, depth: nat, g: nat, j: nat, groups: nat)
    requires g < groups && 4 * groups <= |fs| && j == 4 * g
    ensures Groups(fs, off, depth, g + 1) == Groups(fs, off, depth, g) + Packed(fs[j..j + 4], off, depth)
    ensures |Groups(fs, off, depth, g + 1)| == |Groups(fs, off, depth, g)| + 4 * depth
    ensures |Groups(fs, off, depth, g + 1)| <= |Groups(fs, off, depth, groups)|
  {
    GroupsPrefix(fs, off, depth, g + 1, groups);
  }

  lemma SinglesNext(fs: seq<nat -> Scalar>, off: nat, depth: nat, head: seq<Scalar>, lo: nat, j: nat, hi: nat)
    requires lo <= j < hi <= |fs|
    ensures var done := head + Singles(fs, off, depth, lo, j);
            && done + Lanes(fs[j], off, depth) == head + Singles(fs, off, depth, lo, j + 1)
            && |done| + depth == |head + Singles(fs, off, depth, lo, j + 1)| <= |head + Singles(fs, off, depth, lo, hi)|
  {
    SinglesGrow(fs, off, depth, lo, j + 1, hi);
  }

  /** Writes one group of four columns after the ones that were written. */
  method PackGroup(block: array<Scalar>, at: nat, rhs: SubMapper, depth: nat, j: nat, packetSize: nat, masked: bool,
                   ghost before: seq<Scalar>, ghost done: seq<Scalar>)
    requires rhs.Valid() && j + 4 <= rhs.cols && rhs.depthOffset + depth <= rhs.m.PatchSize()
    requires DepthOffsetAligned(rhs.m, rhs.depthOffset, packetSize)
    requires |before| == block.Length && at == |done| && at + 4 * depth <= block.Length
        && block[..] == Overwrite(before, 0, done)
    modifies block
    ensures block[..] == Overwrite(before, 0, done + Packed(AllColumns(rhs)[j..j + 4], rhs.depthOffset, depth))
  {
    var bs := BasesOf(rhs, j);
    FourOfAll(rhs, j);
    ghost var g := Goal(block[..], at, Columns(rhs.m, bs), rhs.depthOffset);
    FilledNothing(g);
    PackFour(block, at, rhs.m, bs, g, rhs.depthOffset, depth, packetSize, masked);
    OverwriteTwice(before, 0, done, Packed(g.fs, g.off, depth));
  }

  /** Writes one more column on its own. */
  method PackSingle(block: array<Scalar>, at: nat, rhs: SubMapper, depth: nat, j: nat, ghost before: seq<Scalar>,
                    ghost done: seq<Scalar>)
    requires rhs.Valid() && j < rhs.cols
    requires |before| == block.Length && at == |done| && at + depth <= block.Length
        && block[..] == Overwrite(before, 0, done)
    modifies block
    ensures block[..] == Overwrite(before, 0, done + Lanes(AllColumns(rhs)[j], rhs.depthOffset, depth))
  {
    var b := rhs.BaseOf(j);
    ghost var s, lanes := block[..], Lanes(Coeffs(rhs.m, b), rhs.depthOffset, depth);
    OverwriteNothing(s, at);
    for k := 0 to depth
      invariant block[..] == Overwrite(s, at, lanes[..k])
    {
      block[at + k] := LoadCoeff(rhs.m, k + rhs.depthOffset, b);
      assert block[at + k] == lanes[k];
    }
    OverwriteTwice(before, 0, done, lanes);
  }

  /** `gemm_pack_rhs`: on every path, for every padding and stride, the block is the naive packing. */
  method GemmPackRhs(block: array<Scalar>, rhs: SubMapper, depth: nat, packetSize: nat, masked: bool)
    requires rhs.Valid() && rhs.depthOffset + depth <= rhs.m.PatchSize() && rhs.cols * depth <= block.Length
    requires DepthOffsetAligned(rhs.m, rhs.depthOffset, packetSize)
    modifies block
    ensures rhs.cols * depth == |NaivePacking(AllColumns(rhs), rhs.depthOffset, depth)|
    ensures block[..] == Overwrite(old(block[..]), 0, NaivePacking(AllColumns(rhs), rhs.depthOffset, depth))
    ensures PacksConvolution(rhs, depth, block[..])
  {
    ghost var before, fs := block[..], AllColumns(rhs);
    NaiveSize(fs, rhs.depthOffset, depth);
    var at := PackGroups(block, rhs, depth, packetSize, masked);
    PackSingles(block, at, rhs, depth, before);
    NaivePackingIsConvolution(rhs, depth, before);
  }

  method PackGroups(block: array<Scalar>, rhs: SubMapper, depth: nat, packetSize: nat, masked: bool) returns (at: nat)
    requires rhs.Valid() && rhs.depthOffset + depth <= rhs.m.PatchSize()
    requires |Groups(AllColumns(rhs), rhs.depthOffset, depth, rhs.cols / 4)| <= block.Length
    requires DepthOffsetAligned(rhs.m, rhs.depthOffset, packetSize)
    modifies block
    ensures at == |Groups(AllColumns(rhs), rhs.depthOffset, depth, rhs.cols / 4)|
    ensures block[..] == Overwrite(old(block[..]), 0, Groups(AllColumns(rhs), rhs.depthOffset, depth, rhs.cols / 4))
  {
    ghost var before, fs, off := block[..], AllColumns(rhs), rhs.depthOffset;
    var packetCols4 := (rhs.cols / 4) * 4;
    OverwriteNothing(before, 0);
    at := 0;
    var j := 0;
    ghost var g: nat := 0;
    while j < packetCols4
      invariant j == 4 * g && j <= packetCols4 && at == |Groups(fs, off, depth, g)| <= block.Length
      invariant block[..] == Overwrite(before, 0, Groups(fs, off, depth, g))
    {
      GroupsNext(fs, off, depth, g, j, rhs.cols / 4);
      PackGroup(block, at, rhs, depth, j, packetSize, masked, before, Groups(fs, off, depth, g));
      at := at + 4 * depth;
      j := j + 4;
      g := g + 1;
    }
  }

  /** The columns that are left over. */
  method PackSingles(block: array<Scalar>, start: nat, rhs: SubMapper, depth: nat, ghost before: seq<Scalar>)
    requires rhs.Valid() && |before| == block.Length
    requires |NaivePacking(AllColumns(rhs), rhs.depthOffset, depth)| <= block.Length
    requires start == |Groups(AllColumns(rhs), rhs.depthOffset, depth, rhs.cols / 4)|
    requires block[..] == Overwrite(before, 0, Groups(AllColumns(rhs), rhs.depthOffset, depth, rhs.cols / 4))
    modifies block
    ensures block[..] == Overwrite(before, 0, NaivePacking(AllColumns(rhs), rhs.depthOffset, depth))
  {
    ghost var fs, off := AllColumns(rhs), rhs.depthOffset;
    ghost var head := Groups(fs, off, depth, rhs.cols / 4);
    var packetCols4 := (rhs.cols / 4) * 4;
    var at := start;
    ghost var done := head;
    assert head + [] == head;
    for j := packetCols4 to rhs.cols
      invariant done == head + Singles(fs, off, depth, packetCols4, j)
      invariant at == |done| <= block.Length && block[..] == Overwrite(before, 0, done)
    {
      SinglesNext(fs, off, depth, head, packetCols4, j, rhs.cols);
      PackSingle(block, at, rhs, depth, j, before, done);
      done := done + Lanes(fs[j], off, depth);
      at := at + depth;
    }
  }
}
