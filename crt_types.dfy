/**
 * The type side of the CRT lowering (FHEToTFHECrt.cpp): the parameter record,
 * the source and target types, the type converter and the legality oracle that
 * the conversion target builds on top of it.
 */
module CrtTypes {

  /** CrtLoweringParameters: the moduli of the CRT decomposition and what is derived from them. */
  datatype CrtParams = CrtParams(
    mods: seq<int>,
    modsProd: int,
    nMods: nat,
    bits: seq<int>,
    lutSize: nat,
    polynomialSize: nat)

  function Product(s: seq<int>): int {
    if s == [] then 1 else s[0] * Product(s[1..])
  }

  /** The invariant of a well-formed parameter record. */
  predicate ValidParams(p: CrtParams) {
    && p.nMods == |p.mods| > 0
    && |p.bits| == p.nMods
    && p.modsProd == Product(p.mods)
    && (forall i :: 0 <= i < |p.mods| ==> p.mods[i] > 0)
  }

  /**
   * The types the pass sees. `EncryptedInt` is FHE::FheIntegerInterface (`signed` false is
   * FHE::EncryptedIntegerType, true is its signed sibling); `Glwe` is TFHE::GLWECipherTextType
   * with its four parameters, -1 standing for "not yet resolved"; `Future` and `Pointer` are the
   * RT wrappers; `Builtin` is every other type (integers, index, function types, ...).
   */
  datatype Type =
    | EncryptedInt(width: nat, signed: bool)
    | Glwe(dimension: int, polynomialSize: int, bits: int, p: int)
    | RankedTensor(shape: seq<int>, elem: Type)
    | Future(inner: Type)
    | Pointer(inner: Type)
    | Builtin(name: string)

  /** The ciphertext type every encrypted integer of width `w` is lowered to. */
  function CiphertextOf(w: nat): Type {
    Glwe(-1, -1, -1, w)
  }

  /** convertEncrypted: an encrypted integer becomes a 1-D tensor of `crtLength` ciphertexts. */
  function ConvertEncrypted(width: nat, crtLength: nat): (r: Type)
    ensures r.RankedTensor? && r.shape == [crtLength as int]
    ensures r.elem == Glwe(-1, -1, -1, width)
  {
    RankedTensor([crtLength], CiphertextOf(width))
  }

  /**
   * maybeConvertEncryptedTensor: a ranked tensor of encrypted integers gains one trailing
   * dimension of size `crtLength`; any other ranked tensor is returned as it is.
   */
  function MaybeConvertEncryptedTensor(shape: seq<int>, elem: Type, crtLength: nat): (r: Type)
    ensures r.RankedTensor?
    ensures elem.EncryptedInt? ==>
      && |r.shape| == |shape| + 1
      && r.shape[..|shape|] == shape
      && r.shape[|shape|] == crtLength
      && r.elem == Glwe(-1, -1, -1, elem.width)
    ensures !elem.EncryptedInt? ==> r == RankedTensor(shape, elem)
  {
    if !elem.EncryptedInt? then RankedTensor(shape, elem)
    else RankedTensor(shape + [crtLength], CiphertextOf(elem.width))
  }

  /** maybeConvertEncrypted: only encrypted integers are converted. */
  function MaybeConvertEncrypted(t: Type, crtLength: nat): (r: Type)
    ensures t.EncryptedInt? ==> r == RankedTensor([crtLength], Glwe(-1, -1, -1, t.width))
    ensures !t.EncryptedInt? ==> r == t
  {
    if t.EncryptedInt? then ConvertEncrypted(t.width, crtLength) else t
  }

  /**
   * The TypeConverter: the registered conversions are tried most recent first, so the
   * wrappers, then ranked tensors, then encrypted integers, and finally the identity.
   */
  function Convert(t: Type, nMods: nat): (r: Type)
    ensures Lowered(r)
  {
    match t
    case Pointer(inner) => Pointer(Convert(inner, nMods))
    case Future(inner) => Future(Convert(inner, nMods))
    case RankedTensor(shape, elem) => MaybeConvertEncryptedTensor(shape, elem, nMods)
    case EncryptedInt(w, _) => ConvertEncrypted(w, nMods)
    case _ => t
  }

  /**
   * An independent description of the types the converter leaves alone: no encrypted integer
   * at the top, as the element of a ranked tensor, or under a chain of wrappers.
   */
  predicate Lowered(t: Type) {
    match t
    case EncryptedInt(_, _) => false
    case RankedTensor(_, elem) => !elem.EncryptedInt?
    case Future(inner) => Lowered(inner)
    case Pointer(inner) => Lowered(inner)
    case _ => true
  }

  /** The fixed points of the converter are exactly the lowered types. */
  lemma {:induction false} FixedPointIffLowered(t: Type, nMods: nat)
    ensures Convert(t, nMods) == t <==> Lowered(t)
  {
    match t
    case Pointer(inner) => FixedPointIffLowered(inner, nMods);
    case Future(inner) => FixedPointIffLowered(inner, nMods);
    case _ =>
  }

  /** Conversion is idempotent: ciphertext tensors are not converted a second time. */
  lemma ConvertIdempotent(t: Type, nMods: nat)
    ensures Convert(Convert(t, nMods), nMods) == Convert(t, nMods)
  {
    FixedPointIffLowered(Convert(t, nMods), nMods);
  }

  /**
   * The shape rule as seen from outside: an encrypted scalar becomes `[nMods]` ciphertexts of
   * the same width, an encrypted tensor keeps its shape and gains a trailing `nMods`, wrappers
   * are converted inside, and nothing else changes.
   */
  lemma ConvertShapes(t: Type, nMods: nat)
    ensures t.EncryptedInt? ==> Convert(t, nMods) == RankedTensor([nMods], Glwe(-1, -1, -1, t.width))
    ensures t.RankedTensor? && t.elem.EncryptedInt? ==>
      Convert(t, nMods) == RankedTensor(t.shape + [nMods], Glwe(-1, -1, -1, t.elem.width))
    ensures t.RankedTensor? && !t.elem.EncryptedInt? ==> Convert(t, nMods) == t
    ensures t.Future? ==> Convert(t, nMods) == Future(Convert(t.inner, nMods))
    ensures t.Pointer? ==> Convert(t, nMods) == Pointer(Convert(t.inner, nMods))
    ensures t.Glwe? || t.Builtin? ==> Convert(t, nMods) == t
  {
  }

  /** TypeConverter::isLegal over a range of types: every type is a fixed point. */
  predicate AllLegal(ts: seq<Type>, nMods: nat) {
    forall i :: 0 <= i < |ts| ==> Convert(ts[i], nMods) == ts[i]
  }

  /** The kinds of operation the conversion target distinguishes. */
  datatype OpKind =
    | FheOp             // any op of the FHE dialect: illegal
    | TfheOp            // TFHE dialect: legal
    | ArithOp           // arith dialect: legal
    | TensorGenerate    // dynamically legal, with its region's entry arguments
    | ScfFor            // dynamically legal, with its region's entry arguments
    | FuncFunc          // signature and body block arguments
    | TensorInsert      // operands and results
    | TensorExtract
    | ScfYield
    | FuncCall          // always legal
    | TypeLegalOp       // registered through addDynamicallyLegalTypeOp (alloc_tensor, return, slices, RT ops, ...)
    | FuncConstant
    | UnknownOp         // not mentioned by the target: left alone by a partial conversion

  /**
   * An operation as the legality oracle sees it. For a `func.func`, `operandTypes` and
   * `resultTypes` are the inputs and results of its signature; for a `func.constant`, they are
   * the inputs and results of the function type of the function it references.
   */
  datatype Op = Op(kind: OpKind, operandTypes: seq<Type>, resultTypes: seq<Type>, regionArgTypes: seq<Type>)

  predicate AllLowered(ts: seq<Type>) {
    forall i :: 0 <= i < |ts| ==> Lowered(ts[i])
  }

  lemma AllLegalIffLowered(ts: seq<Type>, nMods: nat)
    ensures AllLegal(ts, nMods) <==> AllLowered(ts)
  {
    forall i | 0 <= i < |ts| ensures Convert(ts[i], nMods) == ts[i] <==> Lowered(ts[i]) {
      FixedPointIffLowered(ts[i], nMods);
    }
  }

  /**
   * The legality callbacks registered in runOnOperation, stated in terms of the types
   * themselves: FHE ops are illegal, the TFHE and arith dialects and calls are legal, and an op
   * whose legality is dynamic is legal iff every type it is checked on is already lowered
   * (region entry arguments only for generate, for and func).
   */
  function Legal(op: Op, nMods: nat): (legal: bool)
    ensures op.kind.FheOp? ==> !legal
    ensures op.kind in {TfheOp, ArithOp, FuncCall, UnknownOp} ==> legal
    ensures op.kind in {TensorGenerate, ScfFor, FuncFunc} ==>
      (legal <==> AllLowered(op.operandTypes) && AllLowered(op.resultTypes) && AllLowered(op.regionArgTypes))
    ensures op.kind in {TensorInsert, TensorExtract, ScfYield, TypeLegalOp, FuncConstant} ==>
      (legal <==> AllLowered(op.operandTypes) && AllLowered(op.resultTypes))
  {
    AllLegalIffLowered(op.operandTypes, nMods);
    AllLegalIffLowered(op.resultTypes, nMods);
    AllLegalIffLowered(op.regionArgTypes, nMods);
    match op.kind
    case FheOp => false
    case TfheOp => true
    case ArithOp => true
    case FuncCall => true
    case UnknownOp => true
    case TensorGenerate | ScfFor | FuncFunc =>
      AllLegal(op.operandTypes, nMods) && AllLegal(op.resultTypes, nMods) && AllLegal(op.regionArgTypes, nMods)
    case TensorInsert | TensorExtract | ScfYield | TypeLegalOp | FuncConstant =>
      AllLegal(op.operandTypes, nMods) && AllLegal(op.resultTypes, nMods)
  }

  function ConvertAll(ts: seq<Type>, nMods: nat): (r: seq<Type>)
    ensures |r| == |ts|
  {
    seq(|ts|, i requires 0 <= i < |ts| => Convert(ts[i], nMods))
  }

  /**
   * What the type-converting reinstantiation patterns do: re-create the op with every type
   * converted. The result is legal for every op kind that is not of the FHE dialect.
   */
  function Reinstantiate(op: Op, nMods: nat): (r: Op)
    ensures !op.kind.FheOp? ==> Legal(r, nMods)
    ensures r.kind == op.kind
  {
    var r := Op(op.kind, ConvertAll(op.operandTypes, nMods), ConvertAll(op.resultTypes, nMods),
                ConvertAll(op.regionArgTypes, nMods));
    ConvertAllLegal(op.operandTypes, nMods);
    ConvertAllLegal(op.resultTypes, nMods);
    ConvertAllLegal(op.regionArgTypes, nMods);
    r
  }

  lemma ConvertAllLegal(ts: seq<Type>, nMods: nat)
    ensures AllLegal(ConvertAll(ts, nMods), nMods)
  {
    forall i | 0 <= i < |ts| ensures Convert(ConvertAll(ts, nMods)[i], nMods) == ConvertAll(ts, nMods)[i] {
      ConvertIdempotent(ts[i], nMods);
    }
  }
}
