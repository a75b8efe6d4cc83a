/**
 * The tensor-structural adapters of the CRT lowering (FHEToTFHECrt.cpp): tensor.extract and
 * tensor.insert become slices that cover the whole CRT dimension, extract_slice / insert_slice
 * gain one trailing (0, nMods, 1) entry, collapse/expand shape gain one singleton reassociation
 * group, and from_elements becomes a chain of insert_slice ops into one allocated tensor.
 *
 * Besides the lists these adapters build, the module gives tensors a meaning (a function from
 * coordinates to elements) and proves that the appended CRT entry leaves the existing indexing
 * intact: slicing the lowered tensor is the same as slicing the original one and then taking
 * the residue.
 */
module CrtTensor {
  import opened CrtTypes
  import opened Wrappers
  import opened Numeric

  /** mlir::OpFoldResult as the adapters build it: an SSA index value, an `arith.constant` index, or an attribute. */
  datatype FoldResult = IndexValue(id: nat) | ConstIndex(c: int) | Attr(n: int)

  /** The runtime value of an offset, size or stride, given the values of the SSA indices. */
  function Eval(f: FoldResult, env: nat -> int): int {
    match f
    case IndexValue(id) => env(id)
    case ConstIndex(c) => c
    case Attr(n) => n
  }

  function EvalAll(fs: seq<FoldResult>, env: nat -> int): (r: seq<int>)
    ensures |r| == |fs|
    ensures forall k :: 0 <= k < |fs| ==> r[k] == Eval(fs[k], env)
  {
    seq(|fs|, k requires 0 <= k < |fs| => Eval(fs[k], env))
  }

  function Ones(n: nat): (r: seq<int>)
    ensures |r| == n && forall k :: 0 <= k < n ==> r[k] == 1
  {
    seq(n, _ => 1)
  }

  function Zeros(n: nat): (r: seq<int>)
    ensures |r| == n && forall k :: 0 <= k < n ==> r[k] == 0
  {
    seq(n, _ => 0)
  }

  // ---------------------------------------------------------------------------------------------
  // The meaning of tensors and slices
  // ---------------------------------------------------------------------------------------------

  /** The coordinate of the source tensor that coordinate `c` of a strided slice reads. */
  function SliceSource(offsets: seq<int>, strides: seq<int>, c: seq<int>): (x: seq<int>)
    requires |offsets| == |strides| == |c|
    ensures |x| == |c|
  {
    seq(|c|, k requires 0 <= k < |c| => offsets[k] + c[k] * strides[k])
  }

  /** `c` lies in the box of the given sizes. */
  predicate InBox(c: seq<int>, sizes: seq<int>) {
    |c| == |sizes| && forall k :: 0 <= k < |c| ==> 0 <= c[k] < sizes[k]
  }

  /** tensor.extract_slice: element `c` of the slice. */
  function ReadSlice<E>(t: seq<int> -> E, offsets: seq<int>, strides: seq<int>, c: seq<int>): E
    requires |offsets| == |strides| == |c|
  {
    t(SliceSource(offsets, strides, c))
  }

  /** The slice coordinate that writes destination coordinate `x`, if any. */
  function SlicePreimage(offsets: seq<int>, sizes: seq<int>, strides: seq<int>, x: seq<int>): Option<seq<int>>
    requires |offsets| == |sizes| == |strides| == |x|
    requires forall k :: 0 <= k < |strides| ==> strides[k] > 0
  {
    if forall k :: 0 <= k < |x| ==> HitsDim(offsets[k], sizes[k], strides[k], x[k])
    then Some(seq(|x|, k requires 0 <= k < |x| => (x[k] - offsets[k]) / strides[k]))
    else None
  }

  /** Coordinate `y` is written by the slice along one dimension. */
  predicate HitsDim(offset: int, size: int, stride: int, y: int)
    requires stride > 0
  {
    (y - offset) % stride == 0 && 0 <= (y - offset) / stride < size
  }

  /** tensor.insert_slice: element `x` of the destination after the insertion. */
  function WriteSlice<E>(src: seq<int> -> E, dst: seq<int> -> E, offsets: seq<int>, sizes: seq<int>,
                         strides: seq<int>, x: seq<int>): E
    requires |offsets| == |sizes| == |strides| == |x|
    requires forall k :: 0 <= k < |strides| ==> strides[k] > 0
  {
    match SlicePreimage(offsets, sizes, strides, x)
    case Some(c) => src(c)
    case None => dst(x)
  }

  /**
   * The lowered contents of a tensor of encrypted integers: coordinate `x + [j]` holds residue
   * `j` of element `x`.
   */
  function Lower<E, R>(t: seq<int> -> E, residue: (E, int) -> R): seq<int> -> R {
    (x: seq<int>) => if |x| == 0 then residue(t(x), 0) else residue(t(x[..|x| - 1]), x[|x| - 1])
  }

  lemma LowerAt<E, R>(t: seq<int> -> E, residue: (E, int) -> R, x: seq<int>, j: int)
    ensures Lower(t, residue)(x + [j]) == residue(t(x), j)
  {
    assert (x + [j])[..|x|] == x;
  }

  // ---------------------------------------------------------------------------------------------
  // extract_slice / insert_slice
  // ---------------------------------------------------------------------------------------------

  datatype StaticSlice = StaticSlice(offsets: seq<int>, sizes: seq<int>, strides: seq<int>)

  /**
   * ExtractSliceOpPattern / InsertSliceOpPattern: the static offset, size and stride lists are
   * copied and each gains one CRT entry.
   */
  function AppendCrtEntry(s: StaticSlice, nMods: nat): (r: StaticSlice)
    ensures |r.offsets| == |s.offsets| + 1 && r.offsets[..|s.offsets|] == s.offsets && r.offsets[|s.offsets|] == 0
    ensures |r.sizes| == |s.sizes| + 1 && r.sizes[..|s.sizes|] == s.sizes && r.sizes[|s.sizes|] == nMods
    ensures |r.strides| == |s.strides| + 1 && r.strides[..|s.strides|] == s.strides && r.strides[|s.strides|] == 1
  {
    StaticSlice(s.offsets + [0], s.sizes + [nMods], s.strides + [1])
  }

  /**
   * The SSA operands of an extract_slice (`dest` is None) or an insert_slice (`dest` is the
   * destination tensor): the source tensor and the dynamic offset, size and stride values, each
   * named by its value number.
   */
  datatype SliceOperands = SliceOperands(source: nat, dest: Option<nat>, offsets: seq<nat>, sizes: seq<nat>,
                                         strides: seq<nat>)

  /** A tensor.extract_slice or tensor.insert_slice: operands, static lists and result type. */
  datatype SliceOp = SliceOp(operands: SliceOperands, spec: StaticSlice, resultType: Type)

  /**
   * ExtractSliceOpPattern / InsertSliceOpPattern: the op is rebuilt on the same operands (the
   * source, the destination of an insert and the dynamic lists), each static list gains its CRT
   * entry, and the result type is the converted one.
   */
  function LowerSliceOp(op: SliceOp, nMods: nat): (r: SliceOp)
    requires op.resultType.RankedTensor? && op.resultType.elem.EncryptedInt?
    ensures r.operands == op.operands
    ensures r.spec == AppendCrtEntry(op.spec, nMods)
    ensures r.resultType == RankedTensor(op.resultType.shape + [nMods], Glwe(-1, -1, -1, op.resultType.elem.width))
  {
    SliceOp(op.operands, AppendCrtEntry(op.spec, nMods), Convert(op.resultType, nMods))
  }

  lemma SliceSourceAppend(offsets: seq<int>, strides: seq<int>, c: seq<int>, j: int)
    requires |offsets| == |strides| == |c|
    ensures SliceSource(offsets + [0], strides + [1], c + [j]) == SliceSource(offsets, strides, c) + [j]
  {
  }

  /**
   * The appended (0, nMods, 1) entry of an extract_slice does not disturb the existing indexing:
   * reading the lowered slice at `c + [j]` gives residue `j` of the original slice at `c`, and
   * `c + [j]` is in the lowered slice exactly when `c` is in the original one and `j < nMods`.
   */
  lemma ExtractSliceLoweringCommutes<E, R>(t: seq<int> -> E, residue: (E, int) -> R, s: StaticSlice,
                                           nMods: nat, c: seq<int>, j: int)
    requires |s.offsets| == |s.sizes| == |s.strides| == |c|
    ensures var l := AppendCrtEntry(s, nMods);
      ReadSlice(Lower(t, residue), l.offsets, l.strides, c + [j]) == residue(ReadSlice(t, s.offsets, s.strides, c), j)
    ensures InBox(c + [j], AppendCrtEntry(s, nMods).sizes) <==> InBox(c, s.sizes) && 0 <= j < nMods
  {
    SliceSourceAppend(s.offsets, s.strides, c, j);
    LowerAt(t, residue, SliceSource(s.offsets, s.strides, c), j);
    var l := AppendCrtEntry(s, nMods);
    if InBox(c + [j], l.sizes) {
      assert (c + [j])[|c|] == j;
      forall k | 0 <= k < |c| ensures 0 <= c[k] < s.sizes[k] {
        assert (c + [j])[k] == c[k] && l.sizes[k] == s.sizes[k];
      }
    }
    if InBox(c, s.sizes) && 0 <= j < nMods {
      forall k | 0 <= k < |c| + 1 ensures 0 <= (c + [j])[k] < l.sizes[k] {
        if k < |c| {
          assert (c + [j])[k] == c[k] && l.sizes[k] == s.sizes[k];
        }
      }
    }
  }

  lemma SlicePreimageAppend(s: StaticSlice, nMods: nat, x: seq<int>, j: int)
    requires |s.offsets| == |s.sizes| == |s.strides| == |x|
    requires forall k :: 0 <= k < |s.strides| ==> s.strides[k] > 0
    requires 0 <= j < nMods
    ensures var l := AppendCrtEntry(s, nMods);
      && (forall k :: 0 <= k < |l.strides| ==> l.strides[k] > 0)
      && SlicePreimage(l.offsets, l.sizes, l.strides, x + [j]) ==
        match SlicePreimage(s.offsets, s.sizes, s.strides, x)
        case Some(c) => Some(c + [j])
        case None => None
  {
    var l := AppendCrtEntry(s, nMods);
    var y := x + [j];
    forall k | 0 <= k < |x|
      ensures HitsDim(l.offsets[k], l.sizes[k], l.strides[k], y[k]) == HitsDim(s.offsets[k], s.sizes[k], s.strides[k], x[k])
      ensures (y[k] - l.offsets[k]) / l.strides[k] == (x[k] - s.offsets[k]) / s.strides[k]
    {
      assert y[k] == x[k] && l.offsets[k] == s.offsets[k] && l.sizes[k] == s.sizes[k] && l.strides[k] == s.strides[k];
    }
    assert y[|x|] == j && l.offsets[|x|] == 0 && l.strides[|x|] == 1;
    assert HitsDim(l.offsets[|x|], l.sizes[|x|], l.strides[|x|], y[|x|]);
    if forall k :: 0 <= k < |x| ==> HitsDim(s.offsets[k], s.sizes[k], s.strides[k], x[k]) {
      var c := seq(|x|, k requires 0 <= k < |x| => (x[k] - s.offsets[k]) / s.strides[k]);
      var c' := seq(|y|, k requires 0 <= k < |y| => (y[k] - l.offsets[k]) / l.strides[k]);
      assert c' == c + [j];
    } else {
      var k :| 0 <= k < |x| && !HitsDim(s.offsets[k], s.sizes[k], s.strides[k], x[k]);
      assert !HitsDim(l.offsets[k], l.sizes[k], l.strides[k], y[k]);
    }
  }

  /**
   * The same for insert_slice: inserting the lowered source into the lowered destination with
   * the extended lists, then reading `x + [j]`, gives residue `j` of what the original
   * insert_slice leaves at `x`.
   */
  lemma InsertSliceLoweringCommutes<E, R>(src: seq<int> -> E, dst: seq<int> -> E, residue: (E, int) -> R,
                                          s: StaticSlice, nMods: nat, x: seq<int>, j: int)
    requires |s.offsets| == |s.sizes| == |s.strides| == |x|
    requires forall k :: 0 <= k < |s.strides| ==> s.strides[k] > 0
    requires 0 <= j < nMods
    ensures var l := AppendCrtEntry(s, nMods);
      && (forall k :: 0 <= k < |l.strides| ==> l.strides[k] > 0)
      && WriteSlice(Lower(src, residue), Lower(dst, residue), l.offsets, l.sizes, l.strides, x + [j])
         == residue(WriteSlice(src, dst, s.offsets, s.sizes, s.strides, x), j)
  {
    SlicePreimageAppend(s, nMods, x, j);
    match SlicePreimage(s.offsets, s.sizes, s.strides, x)
    case Some(c) => LowerAt(src, residue, c, j);
    case None => LowerAt(dst, residue, x, j);
  }

  // ---------------------------------------------------------------------------------------------
  // tensor.extract / tensor.insert
  // ---------------------------------------------------------------------------------------------

  /** The element types the extract/insert/from_elements patterns rewrite. */
  predicate RewritesElement(elem: Type) {
    (elem.EncryptedInt? && !elem.signed) || elem.Glwe?
  }

  datatype SliceSpec = SliceSpec(offsets: seq<FoldResult>, sizes: seq<FoldResult>, strides: seq<FoldResult>)

  /**
   * What an element pattern does: leave the op alone (it still reports success) or build a slice
   * op. An extract_slice reads `source`; an insert_slice writes `scalar` into `dest`. Operands are
   * SSA value numbers.
   */
  datatype ElementRewrite =
    | LeftAlone
    | ToExtractSlice(source: nat, spec: SliceSpec, resultType: Type)
    | ToInsertSlice(scalar: nat, dest: nat, spec: SliceSpec)

  /**
   * The lists both element patterns build: the indices followed by a constant 0, sizes 1 followed
   * by nMods, strides 1.
   */
  method BuildElementSlice(indices: seq<FoldResult>, nMods: nat) returns (spec: SliceSpec)
    ensures |spec.offsets| == |spec.sizes| == |spec.strides| == |indices| + 1
    ensures spec.offsets == indices + [ConstIndex(0)]
    ensures forall k :: 0 <= k < |indices| ==> spec.sizes[k] == Attr(1)
    ensures spec.sizes[|indices|] == Attr(nMods)
    ensures forall k :: 0 <= k <= |indices| ==> spec.strides[k] == Attr(1)
  {
    var offsets: seq<FoldResult> := [];
    var sizes: seq<FoldResult> := [];
    var strides: seq<FoldResult> := [];
    for i := 0 to |indices|
      invariant offsets == indices[..i]
      invariant |sizes| == |strides| == i
      invariant forall k :: 0 <= k < i ==> sizes[k] == Attr(1) && strides[k] == Attr(1)
    {
      offsets := offsets + [indices[i]];
      sizes := sizes + [Attr(1)];
      strides := strides + [Attr(1)];
    }
    offsets := offsets + [ConstIndex(0)];
    sizes := sizes + [Attr(nMods)];
    strides := strides + [Attr(1)];
    spec := SliceSpec(offsets, sizes, strides);
  }

  /**
   * TensorExtractOpPattern on `tensor.extract %tensor[indices]`; the result type is the element
   * type, as the op's verifier ensures. For a ciphertext element the converted result type is not
   * a ranked tensor and the cast in the source would fail, but such an extract is already legal
   * (`CrtTypes.Legal`), so the pattern never runs on it.
   */
  method LowerTensorExtract(tensor: nat, tensorType: Type, indices: seq<FoldResult>, resultType: Type, nMods: nat)
    returns (r: ElementRewrite)
    requires tensorType.RankedTensor? && |indices| == |tensorType.shape|
    requires resultType == tensorType.elem
    ensures !RewritesElement(tensorType.elem) ==> r == LeftAlone
    ensures RewritesElement(tensorType.elem) ==>
      && r.ToExtractSlice?
      && r.source == tensor
      && r.resultType == Convert(resultType, nMods)
      && (tensorType.elem.EncryptedInt? ==>
            r.resultType == RankedTensor([nMods as int], Glwe(-1, -1, -1, tensorType.elem.width)))
      && r.spec.offsets == indices + [ConstIndex(0)]
      && r.spec.sizes == seq(|indices|, _ => Attr(1)) + [Attr(nMods)]
      && r.spec.strides == seq(|indices| + 1, _ => Attr(1))
  {
    if !RewritesElement(tensorType.elem) {
      return LeftAlone;
    }
    var spec := BuildElementSlice(indices, nMods);
    r := ToExtractSlice(tensor, spec, Convert(resultType, nMods));
  }

  /** TensorInsertOpPattern on `tensor.insert %scalar into %dest[indices]`. */
  method LowerTensorInsert(scalar: nat, dest: nat, destType: Type, indices: seq<FoldResult>, nMods: nat)
    returns (r: ElementRewrite)
    requires destType.RankedTensor? && |indices| == |destType.shape|
    ensures !RewritesElement(destType.elem) ==> r == LeftAlone
    ensures RewritesElement(destType.elem) ==>
      && r.ToInsertSlice?
      && r.scalar == scalar && r.dest == dest
      && r.spec.offsets == indices + [ConstIndex(0)]
      && r.spec.sizes == seq(|indices|, _ => Attr(1)) + [Attr(nMods)]
      && r.spec.strides == seq(|indices| + 1, _ => Attr(1))
  {
    if !RewritesElement(destType.elem) {
      return LeftAlone;
    }
    var spec := BuildElementSlice(indices, nMods);
    r := ToInsertSlice(scalar, dest, spec);
  }

  /** The slice an element pattern builds, evaluated: `idx + [0]`, `1...1 nMods`, `1...1`. */
  function ElementSlice(idx: seq<int>, nMods: nat): StaticSlice {
    AppendCrtEntry(StaticSlice(idx, Ones(|idx|), Ones(|idx|)), nMods)
  }

  lemma ElementSliceEvaluates(indices: seq<FoldResult>, env: nat -> int, nMods: nat)
    ensures var l := ElementSlice(EvalAll(indices, env), nMods);
      && EvalAll(indices + [ConstIndex(0)], env) == l.offsets
      && EvalAll(seq(|indices|, _ => Attr(1)) + [Attr(nMods)], env) == l.sizes
      && EvalAll(seq(|indices| + 1, _ => Attr(1)), env) == l.strides
  {
  }

  /**
   * The lowered tensor.extract reads exactly the residues of the element at `idx`: position `j` of
   * the rank-reduced result lies in the slice exactly when `0 <= j < nMods`, and there it is
   * residue `j` of `t(idx)`.
   */
  lemma LoweredExtractReadsResidues<E, R>(t: seq<int> -> E, residue: (E, int) -> R, idx: seq<int>, nMods: nat, j: int)
    ensures var l := ElementSlice(idx, nMods);
      && (InBox(Zeros(|idx|) + [j], l.sizes) <==> 0 <= j < nMods)
      && ReadSlice(Lower(t, residue), l.offsets, l.strides, Zeros(|idx|) + [j]) == residue(t(idx), j)
  {
    var s := StaticSlice(idx, Ones(|idx|), Ones(|idx|));
    ExtractSliceLoweringCommutes(t, residue, s, nMods, Zeros(|idx|), j);
    assert SliceSource(idx, Ones(|idx|), Zeros(|idx|)) == idx;
  }

  /**
   * Extract after insert at the same indices gives back the inserted residues: the lowered
   * tensor.insert writes source position `0...0 j` (the `j`-th residue of the inserted value) at
   * `idx + [j]`, and the lowered tensor.extract at `idx` reads exactly that position.
   */
  lemma LoweredInsertThenExtract<E, R>(src: seq<int> -> R, t: seq<int> -> E, residue: (E, int) -> R, idx: seq<int>,
                                       nMods: nat, j: int)
    requires 0 <= j < nMods
    ensures var l := ElementSlice(idx, nMods);
      && SliceSource(l.offsets, l.strides, Zeros(|idx|) + [j]) == idx + [j]
      && (forall k :: 0 <= k < |l.strides| ==> l.strides[k] > 0)
      && WriteSlice(src, Lower(t, residue), l.offsets, l.sizes, l.strides, idx + [j]) == src(Zeros(|idx|) + [j])
  {
    var s := StaticSlice(idx, Ones(|idx|), Ones(|idx|));
    assert SliceSource(idx, Ones(|idx|), Zeros(|idx|)) == idx;
    SliceSourceAppend(idx, Ones(|idx|), Zeros(|idx|), j);
    SlicePreimageAppend(s, nMods, idx, j);
    assert forall k :: 0 <= k < |idx| ==> HitsDim(s.offsets[k], s.sizes[k], s.strides[k], idx[k]);
    assert seq(|idx|, k requires 0 <= k < |idx| => (idx[k] - s.offsets[k]) / s.strides[k]) == Zeros(|idx|);
  }

  /** The lowered tensor.insert at `idx` leaves the residues of every other element unchanged. */
  lemma LoweredInsertLeavesOthers<E, R>(src: seq<int> -> R, t: seq<int> -> E, residue: (E, int) -> R, idx: seq<int>,
                                        nMods: nat, x: seq<int>, j: int)
    requires 0 <= j < nMods && |x| == |idx| && x != idx
    ensures var l := ElementSlice(idx, nMods);
      && (forall k :: 0 <= k < |l.strides| ==> l.strides[k] > 0)
      && WriteSlice(src, Lower(t, residue), l.offsets, l.sizes, l.strides, x + [j]) == residue(t(x), j)
  {
    var s := StaticSlice(idx, Ones(|idx|), Ones(|idx|));
    SlicePreimageAppend(s, nMods, x, j);
    var k :| 0 <= k < |x| && x[k] != idx[k];
    assert !HitsDim(s.offsets[k], s.sizes[k], s.strides[k], x[k]);
    LowerAt(t, residue, x, j);
  }

  // ---------------------------------------------------------------------------------------------
  // collapse_shape / expand_shape
  // ---------------------------------------------------------------------------------------------

  /**
   * TensorReassociationOpPattern: the old groups, then the singleton group of the last dimension
   * of the converted higher-rank type (the source of a collapse, the result of an expand).
   */
  function AppendCrtGroup(groups: seq<seq<int>>, highRankType: Type, nMods: nat): (r: seq<seq<int>>)
    requires highRankType.RankedTensor? && highRankType.elem.EncryptedInt?
    ensures |r| == |groups| + 1 && r[..|groups|] == groups
    ensures r[|groups|] == [|highRankType.shape|]
  {
    var converted := Convert(highRankType, nMods);
    groups + [[|converted.shape| - 1]]
  }

  function Flatten(groups: seq<seq<int>>): seq<int> {
    if groups == [] then [] else Flatten(groups[..|groups| - 1]) + groups[|groups| - 1]
  }

  function Range(n: nat): (r: seq<int>)
    ensures |r| == n && forall k :: 0 <= k < n ==> r[k] == k
  {
    seq(n, k => k)
  }

  /** A reassociation of a rank-`rank` shape: non-empty groups that list 0..rank-1 in order. */
  predicate ValidReassociation(groups: seq<seq<int>>, rank: nat) {
    && Flatten(groups) == Range(rank)
    && forall g :: 0 <= g < |groups| ==> groups[g] != []
  }

  /** The extra group keeps a valid reassociation valid for the rank one higher. */
  lemma AppendCrtGroupValid(groups: seq<seq<int>>, highRankType: Type, nMods: nat)
    requires highRankType.RankedTensor? && highRankType.elem.EncryptedInt?
    requires ValidReassociation(groups, |highRankType.shape|)
    ensures ValidReassociation(AppendCrtGroup(groups, highRankType, nMods), |highRankType.shape| + 1)
  {
    var r := AppendCrtGroup(groups, highRankType, nMods);
    assert r[..|r| - 1] == groups;
    assert Flatten(r) == Range(|highRankType.shape|) + [|highRankType.shape|];
  }

  function ProductAt(shape: seq<int>, group: seq<int>): int
    requires forall k :: 0 <= k < |group| ==> 0 <= group[k] < |shape|
  {
    if group == [] then 1 else shape[group[0]] * ProductAt(shape, group[1..])
  }

  /** The shape a collapse produces: one dimension per group, the product of the group's dimensions. */
  function CollapsedShape(shape: seq<int>, groups: seq<seq<int>>): (r: seq<int>)
    requires forall g, k :: 0 <= g < |groups| && 0 <= k < |groups[g]| ==> 0 <= groups[g][k] < |shape|
    ensures |r| == |groups|
  {
    seq(|groups|, g requires 0 <= g < |groups| => ProductAt(shape, groups[g]))
  }

  lemma {:induction false} ProductAtExtended(shape: seq<int>, n: int, group: seq<int>)
    requires forall k :: 0 <= k < |group| ==> 0 <= group[k] < |shape|
    ensures ProductAt(shape + [n], group) == ProductAt(shape, group)
  {
    if group != [] {
      ProductAtExtended(shape, n, group[1..]);
    }
  }

  /**
   * With the extra group, the collapsed shape of the lowered (higher-rank) shape is the collapsed
   * original shape followed by nMods: the rewritten collapse and expand ops relate the lowered
   * types exactly as the original ops related the original ones.
   */
  lemma AppendCrtGroupShapes(groups: seq<seq<int>>, highRankType: Type, nMods: nat)
    requires highRankType.RankedTensor? && highRankType.elem.EncryptedInt?
    requires ValidReassociation(groups, |highRankType.shape|)
    ensures var shape := highRankType.shape;
      var lowered := Convert(highRankType, nMods).shape;
      var r := AppendCrtGroup(groups, highRankType, nMods);
      && lowered == shape + [nMods]
      && (forall g, k :: 0 <= g < |r| && 0 <= k < |r[g]| ==> 0 <= r[g][k] < |lowered|)
      && (forall g, k :: 0 <= g < |groups| && 0 <= k < |groups[g]| ==> 0 <= groups[g][k] < |shape|)
      && CollapsedShape(lowered, r) == CollapsedShape(shape, groups) + [nMods]
  {
    var shape := highRankType.shape;
    var r := AppendCrtGroup(groups, highRankType, nMods);
    FlattenMembers(groups, |shape|);
    AppendCrtGroupValid(groups, highRankType, nMods);
    FlattenMembers(r, |shape| + 1);
    forall g | 0 <= g < |groups| ensures ProductAt(shape + [nMods], r[g]) == ProductAt(shape, groups[g]) {
      ProductAtExtended(shape, nMods, groups[g]);
    }
    assert ProductAt(shape + [nMods], [|shape|]) == nMods;
  }

  /** Every index listed by a valid reassociation is a dimension of the shape. */
  lemma {:induction false} FlattenMembers(groups: seq<seq<int>>, rank: nat)
    requires Flatten(groups) == Range(rank)
    ensures forall g, k :: 0 <= g < |groups| && 0 <= k < |groups[g]| ==> 0 <= groups[g][k] < rank
  {
    forall g, k | 0 <= g < |groups| && 0 <= k < |groups[g]| ensures 0 <= groups[g][k] < rank {
      FlattenContains(groups, g, k);
    }
  }

  lemma {:induction false} FlattenContains(groups: seq<seq<int>>, g: nat, k: nat)
    requires g < |groups| && k < |groups[g]|
    ensures groups[g][k] in Flatten(groups)
  {
    var front := groups[..|groups| - 1];
    assert Flatten(groups) == Flatten(front) + groups[|groups| - 1];
    if g < |groups| - 1 {
      assert front[g] == groups[g];
      FlattenContains(front, g, k);
    }
  }

  // ---------------------------------------------------------------------------------------------
  // tensor.from_elements
  // ---------------------------------------------------------------------------------------------

  function Prod(shape: seq<int>): int {
    if shape == [] then 1 else Prod(shape[..|shape| - 1]) * shape[|shape| - 1]
  }

  predicate PositiveDims(shape: seq<int>) {
    forall k :: 0 <= k < |shape| ==> shape[k] > 0
  }

  /** Row-major unravelling of a linear index: the last dimension varies fastest. */
  function Unravel(x: int, shape: seq<int>): (c: seq<int>)
    requires PositiveDims(shape)
    ensures |c| == |shape|
    decreases |shape|
  {
    if |shape| == 0 then []
    else
      var front := shape[..|shape| - 1];
      assert PositiveDims(front);
      Unravel(x / shape[|shape| - 1], front) + [x % shape[|shape| - 1]]
  }

  /** Row-major linearisation of a coordinate. */
  function Ravel(c: seq<int>, shape: seq<int>): int
    requires |c| == |shape|
    decreases |shape|
  {
    if |shape| == 0 then 0
    else Ravel(c[..|c| - 1], shape[..|shape| - 1]) * shape[|shape| - 1] + c[|c| - 1]
  }

  /** Every unravelled coordinate lies inside the shape. */
  lemma {:induction false} UnravelInBox(x: int, shape: seq<int>)
    requires PositiveDims(shape)
    ensures InBox(Unravel(x, shape), shape)
    decreases |shape|
  {
    if |shape| != 0 {
      var n := shape[|shape| - 1];
      var front := shape[..|shape| - 1];
      var q := x / n;
      UnravelInBox(q, front);
      var c := Unravel(x, shape);
      assert c == Unravel(q, front) + [x % n];
      assert 0 <= x % n < n;
      forall k | 0 <= k < |c| ensures 0 <= c[k] < shape[k] {
        if k < |front| { assert c[k] == Unravel(q, front)[k]; assert shape[k] == front[k]; }
      }
    }
  }

  /** Ravel undoes Unravel below the number of elements: unravelling is row-major placement. */
  lemma {:induction false} RavelUnravel(x: nat, shape: seq<int>)
    requires PositiveDims(shape) && x < Prod(shape)
    ensures Ravel(Unravel(x, shape), shape) == x
    decreases |shape|
  {
    if |shape| != 0 {
      var n := shape[|shape| - 1];
      var front := shape[..|shape| - 1];
      var q := x / n;
      assert Prod(shape) == Prod(front) * n;
      DivBelow(x, n, Prod(front));
      RavelUnravel(q, front);
      var c := Unravel(x, shape);
      assert c == Unravel(q, front) + [x % n];
      assert c[..|c| - 1] == Unravel(q, front);
      assert Ravel(c, shape) == Ravel(Unravel(q, front), front) * n + x % n;
      DivMod(x, n);
    }
  }

  /** Distinct element indices get distinct coordinates. */
  lemma UnravelInjective(x: nat, y: nat, shape: seq<int>)
    requires PositiveDims(shape) && x < Prod(shape) && y < Prod(shape) && x != y
    ensures Unravel(x, shape) != Unravel(y, shape)
  {
    RavelUnravel(x, shape);
    RavelUnravel(y, shape);
  }

  /**
   * The offsetGenerator lambda: `remainder` starts at `index * multiplier` and is unravelled over
   * the converted output shape from the last dimension to the first.
   */
  method OffsetGenerator(index: nat, multiplier: nat, newShape: seq<int>) returns (offsets: seq<int>)
    requires PositiveDims(newShape)
    ensures offsets == Unravel(index * multiplier, newShape)
  {
    offsets := Zeros(|newShape|);
    var remainder: int := index * multiplier;
    var rankIndex := |newShape| - 1;
    assert newShape[..rankIndex + 1] == newShape;
    while rankIndex >= 0
      invariant -1 <= rankIndex < |newShape| && |offsets| == |newShape|
      invariant Unravel(index * multiplier, newShape)
        == Unravel(remainder, newShape[..rankIndex + 1]) + offsets[rankIndex + 1..]
    {
      ghost var prefix := newShape[..rankIndex + 1];
      assert prefix[..|prefix| - 1] == newShape[..rankIndex];
      offsets := offsets[rankIndex := remainder % newShape[rankIndex]];
      remainder := remainder / newShape[rankIndex];
      rankIndex := rankIndex - 1;
    }
  }

  /** The destination of one insert_slice of the chain: the allocation, or the previous insert's result. */
  datatype Dest = Allocated | PreviousInsert(index: nat)

  datatype InsertSliceOp = InsertSliceOp(source: nat, dest: Dest, offsets: seq<int>, sizes: seq<int>, strides: seq<int>)

  datatype FromElementsRewrite =
    | ElementsLeftAlone
    | InsertChain(allocType: Type, inserts: seq<InsertSliceOp>, result: Dest)

  /** The multiplier the source applies to the element index before unravelling. */
  const SourceMultiplier: nat := 5

  /**
   * TensorFromElementsOpPattern with the offset multiplier as a parameter: allocate the converted
   * result, then thread one insert_slice per element through it, in element order.
   */
  method LowerFromElements(elements: seq<nat>, resultType: Type, nMods: nat, multiplier: nat)
    returns (r: FromElementsRewrite)
    requires resultType.RankedTensor? && nMods > 0
    requires forall k :: 0 <= k < |resultType.shape| ==> resultType.shape[k] >= 0
    requires |elements| == Prod(resultType.shape)
    requires resultType.elem.Glwe? ==> |resultType.shape| > 0
    ensures !RewritesElement(resultType.elem) ==> r == ElementsLeftAlone
    ensures RewritesElement(resultType.elem) ==>
      var newShape := Convert(resultType, nMods).shape;
      && r.InsertChain?
      && r.allocType == Convert(resultType, nMods)
      && |r.inserts| == |elements|
      && r.result == (if |elements| == 0 then Allocated else PreviousInsert(|elements| - 1))
      && forall i :: 0 <= i < |elements| ==>
        && PositiveDims(newShape)
        && r.inserts[i].source == elements[i]
        && r.inserts[i].dest == (if i == 0 then Allocated else PreviousInsert(i - 1))
        && r.inserts[i].offsets == Unravel(i * multiplier, newShape)
        && r.inserts[i].sizes == Ones(|newShape| - 1) + [nMods]
        && r.inserts[i].strides == Ones(|newShape|)
  {
    if !RewritesElement(resultType.elem) {
      return ElementsLeftAlone;
    }
    var allocType := Convert(resultType, nMods);
    // The converter is applied once more to the (already converted) allocation type.
    ConvertIdempotent(resultType, nMods);
    var newShape := Convert(allocType, nMods).shape;
    assert newShape == allocType.shape;
    assert |newShape| > 0;
    var sizes := Ones(|newShape|)[|newShape| - 1 := nMods];
    var strides := Ones(|newShape|);
    assert sizes == Ones(|newShape| - 1) + [nMods];
    if |elements| > 0 {
      ProdPositive(resultType.shape);
      assert PositiveDims(newShape);
    }
    var outputTensor := Allocated;
    var inserts: seq<InsertSliceOp> := [];
    for insertionIndex := 0 to |elements|
      invariant |inserts| == insertionIndex
      invariant outputTensor == (if insertionIndex == 0 then Allocated else PreviousInsert(insertionIndex - 1))
      invariant forall i :: 0 <= i < insertionIndex ==>
        && PositiveDims(newShape)
        && inserts[i].source == elements[i]
        && inserts[i].dest == (if i == 0 then Allocated else PreviousInsert(i - 1))
        && inserts[i].offsets == Unravel(i * multiplier, newShape)
        && inserts[i].sizes == sizes && inserts[i].strides == strides
    {
      var offsets := OffsetGenerator(insertionIndex, multiplier, newShape);
      inserts := inserts + [InsertSliceOp(elements[insertionIndex], outputTensor, offsets, sizes, strides)];
      outputTensor := PreviousInsert(insertionIndex);
    }
    r := InsertChain(allocType, inserts, outputTensor);
  }

  /** A shape with at least one element has positive dimensions only. */
  lemma {:induction false} ProdPositive(shape: seq<int>)
    requires forall k :: 0 <= k < |shape| ==> shape[k] >= 0
    requires Prod(shape) > 0
    ensures PositiveDims(shape)
  {
    if shape != [] {
      var front := shape[..|shape| - 1];
      ProdNonNegative(front);
      ProdPositive(front);
    }
  }

  lemma {:induction false} ProdNonNegative(shape: seq<int>)
    requires forall k :: 0 <= k < |shape| ==> shape[k] >= 0
    ensures Prod(shape) >= 0
  {
    if shape != [] {
      ProdNonNegative(shape[..|shape| - 1]);
    }
  }

  /** The slice placed for one element stays inside the converted output shape. */
  predicate SliceInside(offsets: seq<int>, sizes: seq<int>, shape: seq<int>) {
    |offsets| == |sizes| == |shape| && forall k :: 0 <= k < |shape| ==> 0 <= offsets[k] && offsets[k] + sizes[k] <= shape[k]
  }

  /**
   * With the multiplier equal to nMods, element `i` is placed at its row-major coordinate in the
   * original shape with CRT offset 0; the slices stay inside the converted shape and no two
   * elements share an offset.
   */
  lemma FromElementsCorrectedPlacement(shape: seq<int>, nMods: nat, i: nat, i': nat)
    requires PositiveDims(shape) && nMods > 0
    requires i < Prod(shape) && i' < Prod(shape)
    ensures Unravel(i * nMods, shape + [nMods]) == Unravel(i, shape) + [0]
    ensures SliceInside(Unravel(i * nMods, shape + [nMods]), Ones(|shape|) + [nMods], shape + [nMods])
    ensures i != i' ==> Unravel(i * nMods, shape + [nMods]) != Unravel(i' * nMods, shape + [nMods])
  {
    var s := shape + [nMods];
    assert s[..|s| - 1] == shape;
    MulDivCancel(i, nMods);
    MulDivCancel(i', nMods);
    UnravelInBox(i, shape);
    var o := Unravel(i * nMods, s);
    forall k | 0 <= k < |s| ensures 0 <= o[k] && o[k] + (Ones(|shape|) + [nMods])[k] <= s[k] {
      if k < |shape| {
        assert o[k] == Unravel(i, shape)[k];
      }
    }
    if i != i' {
      UnravelInjective(i, i', shape);
      assert Unravel(i' * nMods, s) == Unravel(i', shape) + [0];
      assert Unravel(i', shape) == Unravel(i' * nMods, s)[..|shape|];
    }
  }

  /**
   * As written (multiplier 5), with nMods = 3 and a 4-element result: element 1 is placed at
   * offset [1, 2], so its slice covers CRT positions 2..4 of a dimension of size 3.
   */
  lemma FromElementsAsWrittenOverruns()
    ensures Unravel(1 * SourceMultiplier, [4, 3]) == [1, 2]
    ensures !SliceInside(Unravel(1 * SourceMultiplier, [4, 3]), [1, 3], [4, 3])
    ensures Unravel(1 * 3, [4, 3]) == [1, 0]
  {
    assert Unravel(1, [4]) == [1] by {
      assert [4][..0] == [];
    }
    assert [4, 3][..1] == [4];
  }
}
