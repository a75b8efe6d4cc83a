/**
 * Tiling of `HLFHELinalg.matmul_eint_int` (Tiling.cpp): the guards of the rewrite pattern, the
 * loop nest it builds, the tile-by-tile computation that nest performs, and the two passes that
 * place and remove the attributes driving it.
 *
 * Encrypted and clear matrix entries are modelled as unbounded integers, so `add_eint` and the
 * tile `matmul_eint_int` are integer addition and the integer matrix product.
 */
module Tiling {
  import opened Numeric

  /** The attribute that stops the pattern from tiling the per-tile matmuls it creates. */
  const TransformMarker: string := "__internal_hlfhe_linalg_tiling_marker__"

  /** The attribute that asks for tiling and carries the three tile sizes. */
  const TileSizesAttr: string := "tile-sizes"

  datatype Attr = UnitAttr | IntegerAttr(value: int) | ArrayAttr(elems: seq<Attr>) | OtherAttr

  /** One dimension of a tensor type: static, or `?`. */
  datatype Dim = Static(size: nat) | Dynamic

  predicate HasStaticShape(dims: seq<Dim>) {
    forall d :: 0 <= d < |dims| ==> dims[d].Static?
  }

  /** A matmul_eint_int op: its attributes and the types of A (N×M), B (M×K) and the result C (N×K). */
  datatype MatMulOp = MatMulOp(attrs: map<string, Attr>, a: seq<Dim>, b: seq<Dim>, c: seq<Dim>)

  /** The operand and result types are matrices, as the op's verifier ensures. */
  predicate WellFormed(op: MatMulOp) {
    |op.a| == 2 && |op.b| == 2 && |op.c| == 2
  }

  // ---------------------------------------------------------------------------------------------
  // The guards of MatMulTilingPattern
  // ---------------------------------------------------------------------------------------------

  datatype TilingError =
    | WrongAttributeType     // `tile-sizes` is not an array
    | WrongTileCount(n: nat) // not exactly three tile sizes
    | WrongTileType          // a tile size that is not an integer
    | NonStaticShape         // A, B or C has a dynamic dimension
    | PartialTiles           // a dimension is not a multiple of its tile size
    | NonPositiveTileSize    // a tile size <= 0 (only in the corrected guard)

  /** The tile sizes T, U, V and the loop upper bounds N, M, K. */
  datatype TilePlan = TilePlan(t: int, u: int, v: int, n: nat, m: nat, k: nat)

  datatype TilingOutcome =
    | Declined                   // `failure()` without a diagnostic: the op is left for others
    | Failed(error: TilingError) // `failure()` after emitting an error
    | Undefined                  // the guard divides by a zero tile size
    | Tiled(plan: TilePlan)

  /** The first five guards: marker, presence, array type, arity and entry types. */
  function ReadTileSizes(op: MatMulOp): (r: TilingOutcome)
    ensures r.Declined? <==> TransformMarker in op.attrs || TileSizesAttr !in op.attrs
    ensures r.Tiled? <==>
      && TransformMarker !in op.attrs && TileSizesAttr in op.attrs
      && op.attrs[TileSizesAttr].ArrayAttr? && |op.attrs[TileSizesAttr].elems| == 3
      && (forall e :: 0 <= e < 3 ==> op.attrs[TileSizesAttr].elems[e].IntegerAttr?)
    ensures r.Tiled? ==> var es := op.attrs[TileSizesAttr].elems;
      r.plan.t == es[0].value && r.plan.u == es[1].value && r.plan.v == es[2].value
    ensures !r.Undefined?
  {
    if TransformMarker in op.attrs then Declined
    else if TileSizesAttr !in op.attrs then Declined
    else
      var tileSizes := op.attrs[TileSizesAttr];
      if !tileSizes.ArrayAttr? then Failed(WrongAttributeType)
      else if |tileSizes.elems| != 3 then Failed(WrongTileCount(|tileSizes.elems|))
      else if !tileSizes.elems[0].IntegerAttr? || !tileSizes.elems[1].IntegerAttr? || !tileSizes.elems[2].IntegerAttr?
      then Failed(WrongTileType)
      else Tiled(TilePlan(tileSizes.elems[0].value, tileSizes.elems[1].value, tileSizes.elems[2].value, 0, 0, 0))
  }

  /** C++ `%` on int64_t: truncating division, so the remainder takes the sign of the dividend. */
  function CppRem(a: int, b: int): (r: int)
    requires b != 0
    ensures a >= 0 ==> 0 <= r && (b > 0 ==> r == a % b)
  {
    var abs := if b < 0 then -b else b;
    if a >= 0 then a % abs else -((-a) % abs)
  }

  /**
   * The static-shape and partial-tile guards for tile sizes (t, u, v), with the short-circuit
   * order of the source: a zero divisor is only reached when the earlier remainders are zero.
   */
  function CheckShapes(op: MatMulOp, t: int, u: int, v: int): (r: TilingOutcome)
    requires WellFormed(op)
    ensures !r.Declined? && (r.Failed? ==> r.error == NonStaticShape || r.error == PartialTiles)
    ensures r == Failed(NonStaticShape) <==> !HasStaticShape(op.a) || !HasStaticShape(op.b) || !HasStaticShape(op.c)
    ensures r.Tiled? <==>
      && HasStaticShape(op.a) && HasStaticShape(op.b) && HasStaticShape(op.c)
      && t != 0 && u != 0 && v != 0
      && CppRem(op.a[0].size, t) == 0 && CppRem(op.a[1].size, u) == 0 && CppRem(op.b[1].size, v) == 0
    ensures r.Tiled? ==> r.plan == TilePlan(t, u, v, op.a[0].size, op.a[1].size, op.b[1].size)
    ensures r.Undefined? ==> t == 0 || u == 0 || v == 0
  {
    if !HasStaticShape(op.a) || !HasStaticShape(op.b) || !HasStaticShape(op.c) then Failed(NonStaticShape)
    else
      var n, m, k := op.a[0].size, op.a[1].size, op.b[1].size;
      if t == 0 then Undefined
      else if CppRem(n, t) != 0 then Failed(PartialTiles)
      else if u == 0 then Undefined
      else if CppRem(m, u) != 0 then Failed(PartialTiles)
      else if v == 0 then Undefined
      else if CppRem(k, v) != 0 then Failed(PartialTiles)
      else Tiled(TilePlan(t, u, v, n, m, k))
  }

  /** MatMulTilingPattern::matchAndRewrite's guards as written. */
  function MatchAsWritten(op: MatMulOp): (r: TilingOutcome)
    requires WellFormed(op)
    ensures !ReadTileSizes(op).Tiled? ==> r == ReadTileSizes(op)
    ensures ReadTileSizes(op).Tiled? ==> var p := ReadTileSizes(op).plan;
      && (r.Tiled? <==>
           && HasStaticShape(op.a) && HasStaticShape(op.b) && HasStaticShape(op.c)
           && p.t != 0 && p.u != 0 && p.v != 0
           && CppRem(op.a[0].size, p.t) == 0 && CppRem(op.a[1].size, p.u) == 0 && CppRem(op.b[1].size, p.v) == 0)
      && (r.Tiled? ==> r.plan == TilePlan(p.t, p.u, p.v, op.a[0].size, op.a[1].size, op.b[1].size))
      && (r.Undefined? ==> p.t == 0 || p.u == 0 || p.v == 0)
  {
    match ReadTileSizes(op)
    case Tiled(p) => CheckShapes(op, p.t, p.u, p.v)
    case other => other
  }

  /** The guards with non-positive tile sizes rejected before any division. */
  function Match(op: MatMulOp): (r: TilingOutcome)
    requires WellFormed(op)
    ensures !r.Undefined?
  {
    match ReadTileSizes(op)
    case Tiled(p) =>
      if p.t <= 0 || p.u <= 0 || p.v <= 0 then Failed(NonPositiveTileSize)
      else CheckShapes(op, p.t, p.u, p.v)
    case other => other
  }

  /**
   * What the corrected guard accepts: the attribute holds three positive integers, the shapes
   * are static, every dimension is a multiple of its tile size, and the plan records exactly
   * those sizes and the dimensions N = dim 0 of A, M = dim 1 of A, K = dim 1 of B.
   */
  lemma MatchTiledIff(op: MatMulOp)
    requires WellFormed(op)
    ensures Match(op).Tiled? <==>
      && ReadTileSizes(op).Tiled?
      && ReadTileSizes(op).plan.t > 0 && ReadTileSizes(op).plan.u > 0 && ReadTileSizes(op).plan.v > 0
      && HasStaticShape(op.a) && HasStaticShape(op.b) && HasStaticShape(op.c)
      && op.a[0].size % ReadTileSizes(op).plan.t == 0
      && op.a[1].size % ReadTileSizes(op).plan.u == 0
      && op.b[1].size % ReadTileSizes(op).plan.v == 0
    ensures Match(op).Tiled? ==> var p := Match(op).plan;
      && p.t == ReadTileSizes(op).plan.t && p.u == ReadTileSizes(op).plan.u && p.v == ReadTileSizes(op).plan.v
      && p.n == op.a[0].size && p.m == op.a[1].size && p.k == op.b[1].size
      && p.t > 0 && p.u > 0 && p.v > 0 && p.n % p.t == 0 && p.m % p.u == 0 && p.k % p.v == 0
  {
  }

  /** On positive tile sizes the two guards agree. */
  lemma MatchAgreesOnPositiveSizes(op: MatMulOp)
    requires WellFormed(op)
    requires ReadTileSizes(op).Tiled? ==>
      ReadTileSizes(op).plan.t > 0 && ReadTileSizes(op).plan.u > 0 && ReadTileSizes(op).plan.v > 0
    ensures MatchAsWritten(op) == Match(op)
  {
  }

  function TileSizesOp(t: int, u: int, v: int, n: nat, m: nat, k: nat): (op: MatMulOp)
    ensures WellFormed(op)
  {
    MatMulOp(map[TileSizesAttr := ArrayAttr([IntegerAttr(t), IntegerAttr(u), IntegerAttr(v)])],
             [Static(n), Static(m)], [Static(m), Static(k)], [Static(n), Static(k)])
  }

  /**
   * As written, a zero tile size reaches `% 0`, and a negative one passes every guard and
   * becomes a negative loop step; the corrected guard rejects both with an error.
   */
  lemma MatchAsWrittenNonPositiveTiles()
    ensures MatchAsWritten(TileSizesOp(0, 1, 1, 4, 4, 4)) == Undefined
    ensures MatchAsWritten(TileSizesOp(-2, 1, 1, 4, 4, 4)) == Tiled(TilePlan(-2, 1, 1, 4, 4, 4))
    ensures Match(TileSizesOp(0, 1, 1, 4, 4, 4)) == Failed(NonPositiveTileSize)
    ensures Match(TileSizesOp(-2, 1, 1, 4, 4, 4)) == Failed(NonPositiveTileSize)
  {
    assert CppRem(4, -2) == 0;
  }

  // ---------------------------------------------------------------------------------------------
  // The loop nest
  // ---------------------------------------------------------------------------------------------

  /** Where a loop's initial iteration arguments come from. */
  datatype Carried = NestInputs | IterArgsOf(loop: nat)

  /** What a loop's body yielded: the results of the next loop in, or what the innermost body builds. */
  datatype Yielded = ResultsOf(loop: nat) | InnermostBody

  datatype ForOp = ForOp(lb: int, ub: int, step: int, inits: Carried, yielded: Yielded)

  /**
   * buildLoopNestWithLoopCarriedDependency: loop `i` runs from lbs[i] to ubs[i] by steps[i]; the
   * loop-carried values enter the outermost loop and are threaded inwards through each loop's
   * iteration arguments; every loop but the innermost yielded the results of the loop inside it.
   * The innermost body receives the induction variables of all loops, outermost first. The
   * outermost loop is `fops[0]`.
   */
  method BuildLoopNest(lbs: seq<int>, ubs: seq<int>, steps: seq<int>)
    returns (fops: seq<ForOp>, inductionVars: seq<nat>)
    requires |lbs| > 0 && |ubs| == |lbs| && |steps| == |lbs|
    ensures |fops| == |lbs| && inductionVars == seq(|lbs|, i => i)
    ensures forall i :: 0 <= i < |fops| ==>
      && fops[i].lb == lbs[i] && fops[i].ub == ubs[i] && fops[i].step == steps[i]
      && fops[i].inits == (if i == 0 then NestInputs else IterArgsOf(i - 1))
      && fops[i].yielded == (if i == |fops| - 1 then InnermostBody else ResultsOf(i + 1))
  {
    var nLoops := |lbs|;
    var loopCarriedDepsUpd := NestInputs;
    fops := [];
    inductionVars := [];
    for i := 0 to nLoops
      invariant |fops| == i && inductionVars == seq(i, x => x)
      invariant loopCarriedDepsUpd == (if i == 0 then NestInputs else IterArgsOf(i - 1))
      invariant forall x :: 0 <= x < i ==>
        && fops[x].lb == lbs[x] && fops[x].ub == ubs[x] && fops[x].step == steps[x]
        && fops[x].inits == (if x == 0 then NestInputs else IterArgsOf(x - 1))
        && fops[x].yielded == InnermostBody
    {
      fops := fops + [ForOp(lbs[i], ubs[i], steps[i], loopCarriedDepsUpd, InnermostBody)];
      loopCarriedDepsUpd := IterArgsOf(i);
      inductionVars := inductionVars + [i];
    }
    for i := 0 to nLoops - 1
      invariant |fops| == nLoops
      invariant forall x :: 0 <= x < nLoops ==>
        && fops[x].lb == lbs[x] && fops[x].ub == ubs[x] && fops[x].step == steps[x]
        && fops[x].inits == (if x == 0 then NestInputs else IterArgsOf(x - 1))
        && fops[x].yielded == (if x < i then ResultsOf(x + 1) else InnermostBody)
    {
      fops := fops[i := fops[i].(yielded := ResultsOf(i + 1))];
    }
  }

  /** The per-tile matmul the innermost body creates: T×U times U×V, marked against re-tiling. */
  function InnerMatMul(p: TilePlan): (op: MatMulOp)
    requires p.t >= 0 && p.u >= 0 && p.v >= 0
    ensures WellFormed(op) && TransformMarker in op.attrs
  {
    MatMulOp(map[TransformMarker := UnitAttr], [Static(p.t), Static(p.u)], [Static(p.u), Static(p.v)],
             [Static(p.t), Static(p.v)])
  }

  /** The marked per-tile matmuls are declined by the pattern, so tiling does not recurse. */
  lemma InnerMatMulDeclined(p: TilePlan)
    requires p.t >= 0 && p.u >= 0 && p.v >= 0
    ensures Match(InnerMatMul(p)) == Declined && MatchAsWritten(InnerMatMul(p)) == Declined
  {
  }

  /**
   * `strayZero` records that the pattern failed after it had started the in-place update of the
   * op and created the zero-initialised result C: it returns failure without erasing the ZeroOp
   * and without finalizing the update.
   */
  datatype Rewrite =
    | NotRewritten(outcome: TilingOutcome, strayZero: bool)
    | Rewritten(plan: TilePlan, loops: seq<ForOp>, inner: MatMulOp)

  /**
   * The whole pattern: the guards, then three loops from 0 to (N, M, K) by (T, U, V) around one
   * marked tile matmul. The shape and partial-tile guards run after C has been created, so a
   * failure there leaves the stray ZeroOp behind; a failure while reading the attribute does not.
   */
  method RewriteMatMul(op: MatMulOp) returns (r: Rewrite)
    requires WellFormed(op)
    ensures !Match(op).Tiled? ==> r.NotRewritten? && r.outcome == Match(op)
    ensures !Match(op).Tiled? ==>
      (r.strayZero <==>
        && ReadTileSizes(op).Tiled?
        && ReadTileSizes(op).plan.t > 0 && ReadTileSizes(op).plan.u > 0 && ReadTileSizes(op).plan.v > 0)
    ensures Match(op).Tiled? ==>
      && r.Rewritten? && r.plan == Match(op).plan
      && |r.loops| == 3
      && r.loops[0] == ForOp(0, r.plan.n, r.plan.t, NestInputs, ResultsOf(1))
      && r.loops[1] == ForOp(0, r.plan.m, r.plan.u, IterArgsOf(0), ResultsOf(2))
      && r.loops[2] == ForOp(0, r.plan.k, r.plan.v, IterArgsOf(1), InnermostBody)
      && r.inner == InnerMatMul(r.plan)
  {
    var outcome := Match(op);
    if !outcome.Tiled? {
      var reachedShapeChecks := outcome.Failed? && (outcome.error == NonStaticShape || outcome.error == PartialTiles);
      return NotRewritten(outcome, reachedShapeChecks);
    }
    MatchTiledIff(op);
    var p := outcome.plan;
    var loops, _ := BuildLoopNest([0, 0, 0], [p.n, p.m, p.k], [p.t, p.u, p.v]);
    r := Rewritten(p, loops, InnerMatMul(p));
  }

  // ---------------------------------------------------------------------------------------------
  // What the loop nest computes
  // ---------------------------------------------------------------------------------------------

  type Matrix = seq<seq<int>>

  predicate IsMatrix(x: Matrix, rows: nat, cols: nat) {
    |x| == rows && forall r :: 0 <= r < rows ==> |x[r]| == cols
  }

  /** The sum over `lo <= x < hi` of `A[r][x] * B[x][c]`. */
  function Dot(a: Matrix, b: Matrix, r: nat, c: nat, lo: nat, hi: nat): int
    requires r < |a| && lo <= hi <= |a[r]| && hi <= |b|
    requires forall x :: lo <= x < hi ==> c < |b[x]|
    decreases hi - lo
  {
    if lo == hi then 0 else Dot(a, b, r, c, lo, hi - 1) + a[r][hi - 1] * b[hi - 1][c]
  }

  /** The untiled product of an n×m and an m×k matrix. */
  function MatMul(a: Matrix, b: Matrix, n: nat, m: nat, k: nat): (r: Matrix)
    requires IsMatrix(a, n, m) && IsMatrix(b, m, k)
    ensures IsMatrix(r, n, k)
    ensures forall i, j {:trigger Dot(a, b, i, j, 0, m)} :: 0 <= i < n && 0 <= j < k ==> r[i][j] == Dot(a, b, i, j, 0, m)
  {
    seq(n, i requires 0 <= i < n => seq(k, j requires 0 <= j < k => Dot(a, b, i, j, 0, m)))
  }

  function Zeros(n: nat, k: nat): (r: Matrix)
    ensures IsMatrix(r, n, k) && forall i, j :: 0 <= i < n && 0 <= j < k ==> r[i][j] == 0
  {
    seq(n, _ => seq(k, _ => 0))
  }

  /** extractContiguous2DSlice: the h×w block at (r0, c0), strides 1. */
  function ExtractTile(x: Matrix, r0: nat, c0: nat, h: nat, w: nat): (r: Matrix)
    requires r0 + h <= |x| && forall i :: r0 <= i < r0 + h ==> c0 + w <= |x[i]|
    ensures IsMatrix(r, h, w) && forall i, j {:trigger r[i][j]} :: 0 <= i < h && 0 <= j < w ==> r[i][j] == x[r0 + i][c0 + j]
  {
    seq(h, i requires 0 <= i < h => seq(w, j requires 0 <= j < w => x[r0 + i][c0 + j]))
  }

  /** tensor.insert_slice of an h×w block at (r0, c0) into an n×k matrix, strides 1: the rest is kept. */
  function InsertTile(x: Matrix, n: nat, k: nat, r0: nat, c0: nat, tile: Matrix, h: nat, w: nat): (r: Matrix)
    requires IsMatrix(x, n, k) && IsMatrix(tile, h, w)
    ensures IsMatrix(r, n, k)
    ensures forall i, j {:trigger r[i][j]} :: 0 <= i < n && 0 <= j < k ==>
      r[i][j] == if r0 <= i < r0 + h && c0 <= j < c0 + w then tile[i - r0][j - c0] else x[i][j]
  {
    seq(n, i requires 0 <= i < n => seq(k, j requires 0 <= j < k =>
      if r0 <= i < r0 + h && c0 <= j < c0 + w then tile[i - r0][j - c0] else x[i][j]))
  }

  /** add_eint on two h×w tiles. */
  function AddTiles(x: Matrix, y: Matrix, h: nat, w: nat): (r: Matrix)
    requires IsMatrix(x, h, w) && IsMatrix(y, h, w)
    ensures IsMatrix(r, h, w) && forall i, j {:trigger r[i][j]} :: 0 <= i < h && 0 <= j < w ==> r[i][j] == x[i][j] + y[i][j]
  {
    seq(h, i requires 0 <= i < h => seq(w, j requires 0 <= j < w => x[i][j] + y[i][j]))
  }

  lemma {:induction false} DotSplit(a: Matrix, b: Matrix, r: nat, c: nat, lo: nat, mid: nat, hi: nat)
    requires r < |a| && lo <= mid <= hi <= |a[r]| && hi <= |b|
    requires forall x :: lo <= x < hi ==> c < |b[x]|
    ensures Dot(a, b, r, c, lo, hi) == Dot(a, b, r, c, lo, mid) + Dot(a, b, r, c, mid, hi)
    decreases hi - mid
  {
    if mid < hi {
      DotSplit(a, b, r, c, lo, mid, hi - 1);
    }
  }

  /** A dot product over tiles is the dot product over the corresponding range of the matrices. */
  lemma {:induction false} DotOfTiles(a: Matrix, b: Matrix, n: nat, m: nat, k: nat,
                                      i: nat, j: nat, kk: nat, t: nat, u: nat, v: nat, r: nat, c: nat, len: nat)
    requires IsMatrix(a, n, m) && IsMatrix(b, m, k)
    requires i + t <= n && j + u <= m && kk + v <= k && i <= r < i + t && kk <= c < kk + v && len <= u
    ensures Dot(ExtractTile(a, i, j, t, u), ExtractTile(b, j, kk, u, v), r - i, c - kk, 0, len)
         == Dot(a, b, r, c, j, j + len)
  {
    if len > 0 {
      DotOfTiles(a, b, n, m, k, i, j, kk, t, u, v, r, c, len - 1);
    }
  }

  /** An entry of the product of two tiles, at its position (r, c) in the whole result. */
  lemma TileProduct(a: Matrix, b: Matrix, n: nat, m: nat, k: nat,
                    i: nat, j: nat, kk: nat, t: nat, u: nat, v: nat, r: nat, c: nat)
    requires IsMatrix(a, n, m) && IsMatrix(b, m, k)
    requires i + t <= n && j + u <= m && kk + v <= k && i <= r < i + t && kk <= c < kk + v
    ensures MatMul(ExtractTile(a, i, j, t, u), ExtractTile(b, j, kk, u, v), t, u, v)[r - i][c - kk]
         == Dot(a, b, r, c, j, j + u)
  {
    DotOfTiles(a, b, n, m, k, i, j, kk, t, u, v, r, c, u);
  }

  /**
   * How far along the inner dimension entry (r, c) of C has been summed when the loop nest is
   * about to run iteration (i, j, kk): rows of earlier row tiles are complete, rows of the
   * current row tile have the current inner tile added for the column tiles already visited,
   * and later rows are still zero.
   */
  function Progress(r: nat, c: nat, i: nat, j: nat, kk: nat, t: nat, u: nat, m: nat): nat {
    if r < i then m else if r < i + t then (if c < kk then j + u else j) else 0
  }

  predicate Summed(cm: Matrix, a: Matrix, b: Matrix, n: nat, m: nat, k: nat,
                   i: nat, j: nat, kk: nat, t: nat, u: nat)
    requires IsMatrix(a, n, m) && IsMatrix(b, m, k)
  {
    && IsMatrix(cm, n, k)
    && forall r, c :: 0 <= r < n && 0 <= c < k ==>
      Progress(r, c, i, j, kk, t, u, m) <= m && cm[r][c] == Dot(a, b, r, c, 0, Progress(r, c, i, j, kk, t, u, m))
  }

  /** One iteration of the innermost body keeps the accumulator summed, one column tile further on. */
  lemma TileStep(cm: Matrix, a: Matrix, b: Matrix, n: nat, m: nat, k: nat,
                 i: nat, j: nat, kk: nat, t: nat, u: nat, v: nat)
    requires IsMatrix(a, n, m) && IsMatrix(b, m, k)
    requires i + t <= n && j + u <= m && kk + v <= k
    requires Summed(cm, a, b, n, m, k, i, j, kk, t, u)
    ensures var cTile := ExtractTile(cm, i, kk, t, v);
      var product := MatMul(ExtractTile(a, i, j, t, u), ExtractTile(b, j, kk, u, v), t, u, v);
      Summed(InsertTile(cm, n, k, i, kk, AddTiles(cTile, product, t, v), t, v), a, b, n, m, k, i, j, kk + v, t, u)
  {
    var next := InsertTile(cm, n, k, i, kk, AddTiles(ExtractTile(cm, i, kk, t, v),
      MatMul(ExtractTile(a, i, j, t, u), ExtractTile(b, j, kk, u, v), t, u, v), t, v), t, v);
    forall r, c | 0 <= r < n && 0 <= c < k
      ensures Progress(r, c, i, j, kk + v, t, u, m) <= m
      ensures next[r][c] == Dot(a, b, r, c, 0, Progress(r, c, i, j, kk + v, t, u, m))
    {
      if i <= r < i + t && kk <= c < kk + v {
        TileCell(cm, a, b, n, m, k, i, j, kk, t, u, v, r, c);
      } else {
        assert next[r][c] == cm[r][c];
      }
    }
  }

  /** The entry of one tile update that lies inside the tile. */
  lemma TileCell(cm: Matrix, a: Matrix, b: Matrix, n: nat, m: nat, k: nat,
                 i: nat, j: nat, kk: nat, t: nat, u: nat, v: nat, r: nat, c: nat)
    requires IsMatrix(a, n, m) && IsMatrix(b, m, k)
    requires i + t <= n && j + u <= m && kk + v <= k
    requires i <= r < i + t && kk <= c < kk + v
    requires IsMatrix(cm, n, k) && cm[r][c] == Dot(a, b, r, c, 0, j)
    ensures var cTile := ExtractTile(cm, i, kk, t, v);
      var product := MatMul(ExtractTile(a, i, j, t, u), ExtractTile(b, j, kk, u, v), t, u, v);
      InsertTile(cm, n, k, i, kk, AddTiles(cTile, product, t, v), t, v)[r][c] == Dot(a, b, r, c, 0, j + u)
  {
    TileProduct(a, b, n, m, k, i, j, kk, t, u, v, r, c);
    DotSplit(a, b, r, c, 0, j, j + u);
  }

  /** `x` is a non-negative multiple of `s` below `bound`, which is a multiple of `s`: a whole step fits. */
  lemma StepFits(bound: nat, x: nat, s: nat)
    requires s > 0 && x < bound && (bound - x) % s == 0
    ensures x + s <= bound && (bound - (x + s)) % s == 0
  {
    var d := bound - x;
    if d < s {
      DivModUnique(d, s, 0, d);
      assert false;
    }
    ModPlusDivisor(d - s, s);
  }

  lemma SummedStart(a: Matrix, b: Matrix, n: nat, m: nat, k: nat, t: nat, u: nat)
    requires IsMatrix(a, n, m) && IsMatrix(b, m, k)
    ensures Summed(Zeros(n, k), a, b, n, m, k, 0, 0, 0, t, u)
  {
  }

  /** Past the last column tile, the next inner tile starts: every entry of the row tile has reached `j + u`. */
  lemma SummedNextInnerTile(cm: Matrix, a: Matrix, b: Matrix, n: nat, m: nat, k: nat, i: nat, j: nat, t: nat, u: nat)
    requires IsMatrix(a, n, m) && IsMatrix(b, m, k) && j + u <= m
    requires Summed(cm, a, b, n, m, k, i, j, k, t, u)
    ensures Summed(cm, a, b, n, m, k, i, j + u, 0, t, u)
  {
    assert forall r, c :: 0 <= r < n && 0 <= c < k ==>
      Progress(r, c, i, j, k, t, u, m) == Progress(r, c, i, j + u, 0, t, u, m);
  }

  /** Past the last inner tile, the row tile is complete and the next one starts. */
  lemma SummedNextRowTile(cm: Matrix, a: Matrix, b: Matrix, n: nat, m: nat, k: nat, i: nat, t: nat, u: nat)
    requires IsMatrix(a, n, m) && IsMatrix(b, m, k)
    requires Summed(cm, a, b, n, m, k, i, m, 0, t, u)
    ensures Summed(cm, a, b, n, m, k, i + t, 0, 0, t, u)
  {
    assert forall r, c :: 0 <= r < n && 0 <= c < k ==>
      Progress(r, c, i, m, 0, t, u, m) == Progress(r, c, i + t, 0, 0, t, u, m);
  }

  /** Once every row tile is done, the accumulator is the untiled product. */
  lemma SummedDone(cm: Matrix, a: Matrix, b: Matrix, n: nat, m: nat, k: nat, t: nat, u: nat)
    requires IsMatrix(a, n, m) && IsMatrix(b, m, k)
    requires Summed(cm, a, b, n, m, k, n, 0, 0, t, u)
    ensures cm == MatMul(a, b, n, m, k)
  {
    var p := MatMul(a, b, n, m, k);
    forall r | 0 <= r < n ensures cm[r] == p[r] {
      assert forall c :: 0 <= c < k ==> cm[r][c] == p[r][c];
    }
  }

  /** Three loops from 0 whose steps are positive and divide their upper bounds. */
  predicate RunnableNest(loops: seq<ForOp>) {
    |loops| == 3 &&
    forall x :: 0 <= x < 3 ==> loops[x].lb == 0 && loops[x].ub >= 0 && loops[x].step > 0 && loops[x].ub % loops[x].step == 0
  }

  /**
   * A loop nest built by the pattern, run: loop x goes from `loops[x].lb` to `loops[x].ub` by
   * `loops[x].step`, C starts as zeros, and iteration (i, j, kk) reads the T×U tile of A at
   * (i, j), the U×V tile of B at (j, kk) and the T×V tile of C at (i, kk), and writes the C tile
   * plus the tile product back at (i, kk). The result is the untiled product.
   */
  method TiledMatMul(a: Matrix, b: Matrix, loops: seq<ForOp>) returns (cm: Matrix)
    requires RunnableNest(loops)
    requires IsMatrix(a, loops[0].ub, loops[1].ub) && IsMatrix(b, loops[1].ub, loops[2].ub)
    ensures cm == MatMul(a, b, loops[0].ub, loops[1].ub, loops[2].ub)
  {
    var n: nat, m: nat, k: nat := loops[0].ub, loops[1].ub, loops[2].ub;
    var t: nat, u: nat, v: nat := loops[0].step, loops[1].step, loops[2].step;
    cm := Zeros(n, k);
    SummedStart(a, b, n, m, k, t, u);
    var i := loops[0].lb;
    while i < n
      invariant i <= n && (n - i) % t == 0
      invariant Summed(cm, a, b, n, m, k, i, 0, 0, t, u)
      decreases n - i
    {
      StepFits(n, i, t);
      var j := loops[1].lb;
      while j < m
        invariant j <= m && (m - j) % u == 0
        invariant Summed(cm, a, b, n, m, k, i, j, 0, t, u)
        decreases m - j
      {
        StepFits(m, j, u);
        var kk := loops[2].lb;
        while kk < k
          invariant kk <= k && (k - kk) % v == 0
          invariant Summed(cm, a, b, n, m, k, i, j, kk, t, u)
          decreases k - kk
        {
          StepFits(k, kk, v);
          var aTile := ExtractTile(a, i, j, t, u);
          var bTile := ExtractTile(b, j, kk, u, v);
          var cTile := ExtractTile(cm, i, kk, t, v);
          var accuTile := AddTiles(cTile, MatMul(aTile, bTile, t, u, v), t, v);
          TileStep(cm, a, b, n, m, k, i, j, kk, t, u, v);
          cm := InsertTile(cm, n, k, i, kk, accuTile, t, v);
          kk := kk + v;
        }
        SummedNextInnerTile(cm, a, b, n, m, k, i, j, t, u);
        j := j + u;
      }
      SummedNextRowTile(cm, a, b, n, m, k, i, t, u);
      i := i + t;
    }
    SummedDone(cm, a, b, n, m, k, t, u);
  }

  // ---------------------------------------------------------------------------------------------
  // The two passes' attribute handling
  // ---------------------------------------------------------------------------------------------

  /** HLFHELinalgTilingMarkerPass: every matmul gets the same `tile-sizes` array; nothing else changes. */
  function MarkForTiling(ops: seq<MatMulOp>, tileSizes: seq<int>): (r: seq<MatMulOp>)
    ensures |r| == |ops|
    ensures forall i :: 0 <= i < |ops| ==>
      && r[i].a == ops[i].a && r[i].b == ops[i].b && r[i].c == ops[i].c
      && TileSizesAttr in r[i].attrs
      && r[i].attrs[TileSizesAttr] == ArrayAttr(seq(|tileSizes|, x requires 0 <= x < |tileSizes| => IntegerAttr(tileSizes[x])))
      && (forall key :: key != TileSizesAttr ==> (key in r[i].attrs <==> key in ops[i].attrs))
      && (forall key :: key != TileSizesAttr && key in ops[i].attrs ==> r[i].attrs[key] == ops[i].attrs[key])
  {
    var attr := ArrayAttr(seq(|tileSizes|, x requires 0 <= x < |tileSizes| => IntegerAttr(tileSizes[x])));
    seq(|ops|, i requires 0 <= i < |ops| => ops[i].(attrs := ops[i].attrs[TileSizesAttr := attr]))
  }

  /**
   * A marked matmul without the internal marker is read as asking for exactly the given sizes
   * when there are three of them, and fails on the count otherwise.
   */
  lemma MarkedTileSizesRead(ops: seq<MatMulOp>, tileSizes: seq<int>, i: nat)
    requires i < |ops| && TransformMarker !in ops[i].attrs
    ensures var op := MarkForTiling(ops, tileSizes)[i];
      && (|tileSizes| == 3 ==> ReadTileSizes(op) == Tiled(TilePlan(tileSizes[0], tileSizes[1], tileSizes[2], 0, 0, 0)))
      && (|tileSizes| != 3 ==> ReadTileSizes(op) == Failed(WrongTileCount(|tileSizes|)))
  {
    assert TransformMarker != TileSizesAttr;
  }

  /** The cleanup walk of HLFHELinalgTilingPass: the marker is removed from every matmul. */
  function StripMarkers(ops: seq<MatMulOp>): (r: seq<MatMulOp>)
    ensures |r| == |ops|
    ensures forall i :: 0 <= i < |ops| ==>
      && TransformMarker !in r[i].attrs
      && r[i].a == ops[i].a && r[i].b == ops[i].b && r[i].c == ops[i].c
      && forall key :: key != TransformMarker ==>
        (key in r[i].attrs <==> key in ops[i].attrs) && (key in ops[i].attrs ==> r[i].attrs[key] == ops[i].attrs[key])
  {
    seq(|ops|, i requires 0 <= i < |ops| => ops[i].(attrs := ops[i].attrs - {TransformMarker}))
  }

  /**
   * After the cleanup the per-tile matmuls carry no attribute at all, and an op that still holds
   * `tile-sizes` is no longer shielded by the marker.
   */
  lemma StrippedInnerMatMul(p: TilePlan)
    requires p.t >= 0 && p.u >= 0 && p.v >= 0
    ensures StripMarkers([InnerMatMul(p)])[0].attrs == map[]
  {
    var r := StripMarkers([InnerMatMul(p)])[0];
    assert forall key :: key !in r.attrs;
  }

  /**
   * The pattern followed by its nest: on matrices of the op's static shapes, the three loops the
   * rewrite emits compute the untiled product.
   */
  method RunRewrittenMatMul(op: MatMulOp, a: Matrix, b: Matrix) returns (cm: Matrix)
    requires WellFormed(op) && Match(op).Tiled?
    requires IsMatrix(a, Match(op).plan.n, Match(op).plan.m) && IsMatrix(b, Match(op).plan.m, Match(op).plan.k)
    ensures cm == MatMul(a, b, Match(op).plan.n, Match(op).plan.m, Match(op).plan.k)
  {
    MatchTiledIff(op);
    var r := RewriteMatMul(op);
    cm := TiledMatMul(a, b, r.loops);
  }
}
