/**
 * The arithmetic rewrite rules of the CRT lowering (FHEToTFHECrt.cpp): every FHE arithmetic op
 * becomes an `scf.for` over the CRT dimension whose body extracts residue `i` of the operands,
 * applies one TFHE op and inserts the result into the loop-carried accumulator. The TFHE ops and
 * the CRT encoders are opaque here: they are constructors of symbolic terms, so the model states
 * exactly which op is applied to which residue, and nothing about what the op computes.
 */
module CrtArith {
  import opened CrtTypes
  import Numeric

  /** `k` is the value of a `w`-bit signless integer read as signed (what `arith.extsi` reads). */
  predicate InSignedRange(k: int, w: nat) {
    w > 0 && -(Numeric.Pow2(w - 1) as int) <= k < Numeric.Pow2(w - 1)
  }

  /** The two's-complement wrap-around of `x` to `w` bits, read as signed. */
  function WrapSigned(x: int, w: nat): (r: int)
    requires w > 0
    ensures InSignedRange(r, w)
  {
    var m := x % Numeric.Pow2(w);
    if m >= Numeric.Pow2(w - 1) then m - Numeric.Pow2(w) else m
  }

  /**
   * `arith.muli k, -1` at the width of `k`: the negation wraps, so the smallest value is its
   * own negation.
   */
  function NegateAtWidth(k: int, w: nat): (r: int)
    requires InSignedRange(k, w)
    ensures InSignedRange(r, w)
    ensures k != -(Numeric.Pow2(w - 1) as int) ==> r == -k
    ensures k == -(Numeric.Pow2(w - 1) as int) ==> r == k
  {
    NegationWraps(k, w);
    WrapSigned(k * -1, w)
  }

  lemma NegationWraps(k: int, w: nat)
    requires InSignedRange(k, w)
    ensures k != -(Numeric.Pow2(w - 1) as int) ==> WrapSigned(k * -1, w) == -k
    ensures k == -(Numeric.Pow2(w - 1) as int) ==> WrapSigned(k * -1, w) == k
  {
    if k == -(Numeric.Pow2(w - 1) as int) {
      WrapSignedOfMin(w);
    } else {
      WrapSignedOfRange(k * -1, w);
    }
  }

  lemma ModOfNegative(x: int, p: int)
    requires p > 0 && -p <= x < 0
    ensures x % p == x + p
  {
    Numeric.DivModUnique(x, p, -1, x + p);
  }

  lemma ModOfSmall(x: int, p: int)
    requires 0 <= x < p
    ensures x % p == x
  {
  }

  /** Wrapping a value that already fits changes nothing. */
  lemma WrapSignedOfRange(x: int, w: nat)
    requires InSignedRange(x, w)
    ensures WrapSigned(x, w) == x
  {
    var h, p := Numeric.Pow2(w - 1), Numeric.Pow2(w);
    assert p == 2 * h;
    if x < 0 {
      ModOfNegative(x, p);
      assert x % p >= h;
    } else {
      ModOfSmall(x, p);
      assert x % p < h;
    }
  }

  lemma WrapSignedOfMin(w: nat)
    requires w > 0
    ensures WrapSigned(Numeric.Pow2(w - 1), w) == -(Numeric.Pow2(w - 1) as int)
  {
    var h := Numeric.Pow2(w - 1);
    assert Numeric.Pow2(w) == 2 * h;
    Numeric.DivModUnique(h, 2 * h, 0, h);
  }

  /** The element of the CRT encoding of a 64-bit value (EncodePlaintextWithCrtOp) at one residue. */
  datatype Plaintext = CrtEncoded(value: int, mods: seq<int>, modsProd: int, index: nat)

  /**
   * Ciphertext values as symbolic terms. `Opaque` is a ciphertext produced elsewhere, `Undefined`
   * the content of a freshly allocated tensor; every other constructor is one TFHE op, tagged with
   * the ciphertext type it is created with.
   */
  datatype Ciphertext =
    | Opaque(id: nat)
    | Undefined
    | AddGlweInt(ty: Type, ct: Ciphertext, pt: Plaintext)
    | SubGlweInt(ty: Type, pt: Plaintext, ct: Ciphertext)
    | AddGlwe(ty: Type, lhs: Ciphertext, rhs: Ciphertext)
    | NegGlwe(ty: Type, ct: Ciphertext)
    | MulGlweInt(ty: Type, ct: Ciphertext, cleartext: int)

  /** writePlaintextCrtEncoding: sign-extend the plaintext to i64 and encode it under the moduli. */
  function WritePlaintextCrtEncoding(k: int, kWidth: nat, p: CrtParams): (r: seq<Plaintext>)
    requires InSignedRange(k, kWidth) && kWidth < 64
    ensures |r| == p.nMods
    ensures forall i :: 0 <= i < p.nMods ==> r[i].value == k && r[i].index == i
    ensures forall i :: 0 <= i < p.nMods ==> r[i].mods == p.mods && r[i].modsProd == p.modsProd
  {
    seq(p.nMods, i requires 0 <= i < p.nMods => CrtEncoded(k, p.mods, p.modsProd, i))
  }

  /**
   * The header of the `scf.for` written by writeUnaryTensorLoop: an induction variable from 0 to
   * nMods by 1, carrying a freshly allocated tensor of the operand's converted type.
   */
  datatype CrtLoop = CrtLoop(lowerBound: int, upperBound: int, step: int, accType: Type, init: seq<Ciphertext>)

  function WriteUnaryTensorLoop(returnType: Type, p: CrtParams): (l: CrtLoop)
    requires returnType.RankedTensor? && returnType.shape == [p.nMods as int]
    ensures l.lowerBound == 0 && l.upperBound == p.nMods && l.step == 1
    ensures l.accType == returnType && |l.init| == p.nMods
    ensures forall i :: 0 <= i < |l.init| ==> l.init[i] == Undefined
  {
    CrtLoop(0, p.nMods, 1, returnType, seq(p.nMods, _ => Undefined))
  }

  /**
   * Runs the loop: each iteration computes the body at `i` and inserts it at position `i` of the
   * loop-carried tensor (`tensor.insert` into `args[0]`, then `scf.yield`).
   */
  method RunUnaryTensorLoop(l: CrtLoop, body: nat --> Ciphertext) returns (acc: seq<Ciphertext>)
    requires 0 == l.lowerBound <= l.upperBound == |l.init| && l.step == 1
    requires forall i :: 0 <= i < l.upperBound ==> body.requires(i)
    ensures |acc| == |l.init|
    ensures forall i :: 0 <= i < |acc| ==> acc[i] == body(i)
  {
    acc := l.init;
    var i := l.lowerBound;
    while i < l.upperBound
      invariant 0 <= i <= l.upperBound && |acc| == |l.init|
      invariant forall j :: 0 <= j < i ==> acc[j] == body(j)
    {
      acc := acc[i := body(i)];
      i := i + l.step;
    }
  }

  /**
   * The ciphertext type every rule creates its TFHE ops with: the element type of the converted
   * type of the (already converted) encrypted operand.
   */
  function CiphertextScalarType(operandType: Type, nMods: nat): (r: Type)
    requires Convert(operandType, nMods).RankedTensor?
  {
    Convert(operandType, nMods).elem
  }

  /** Converting the already converted operand type again still yields its ciphertext element. */
  lemma CiphertextScalarTypeOfConverted(w: nat, signed: bool, nMods: nat)
    ensures Convert(Convert(EncryptedInt(w, signed), nMods), nMods).RankedTensor?
    ensures CiphertextScalarType(Convert(EncryptedInt(w, signed), nMods), nMods) == Glwe(-1, -1, -1, w)
  {
    ConvertIdempotent(EncryptedInt(w, signed), nMods);
  }

  /** The converted type of an encrypted scalar operand, as the rules receive it from the adaptor. */
  predicate IsLoweredScalar(ty: Type, x: seq<Ciphertext>, w: nat, p: CrtParams) {
    ty == RankedTensor([p.nMods as int], Glwe(-1, -1, -1, w)) && |x| == p.nMods
  }

  /** AddEintIntOpPattern: out[i] = add_glwe_int(x[i], encode(k)[i]). */
  method LowerAddEintInt(xTy: Type, x: seq<Ciphertext>, w: nat, k: int, kWidth: nat, p: CrtParams)
    returns (rTy: Type, r: seq<Ciphertext>)
    requires IsLoweredScalar(xTy, x, w, p)
    requires InSignedRange(k, kWidth) && kWidth < 64
    ensures rTy == xTy && |r| == p.nMods
    ensures forall i :: 0 <= i < p.nMods ==>
      r[i] == AddGlweInt(Glwe(-1, -1, -1, w), x[i], CrtEncoded(k, p.mods, p.modsProd, i))
  {
    var encoded := WritePlaintextCrtEncoding(k, kWidth, p);
    var ctTy := CiphertextScalarType(xTy, p.nMods);
    var loop := WriteUnaryTensorLoop(xTy, p);
    r := RunUnaryTensorLoop(loop, (i: nat) requires i < |x| && i < |encoded| => AddGlweInt(ctTy, x[i], encoded[i]));
    rTy := loop.accType;
  }

  /** SubIntEintOpPattern: out[i] = sub_glwe_int(encode(k)[i], x[i]); the plaintext is not negated. */
  method LowerSubIntEint(k: int, kWidth: nat, xTy: Type, x: seq<Ciphertext>, w: nat, p: CrtParams)
    returns (rTy: Type, r: seq<Ciphertext>)
    requires IsLoweredScalar(xTy, x, w, p)
    requires InSignedRange(k, kWidth) && kWidth < 64
    ensures rTy == xTy && |r| == p.nMods
    ensures forall i :: 0 <= i < p.nMods ==>
      r[i] == SubGlweInt(Glwe(-1, -1, -1, w), CrtEncoded(k, p.mods, p.modsProd, i), x[i])
  {
    var encoded := WritePlaintextCrtEncoding(k, kWidth, p);
    var ctTy := CiphertextScalarType(xTy, p.nMods);
    var loop := WriteUnaryTensorLoop(xTy, p);
    r := RunUnaryTensorLoop(loop, (i: nat) requires i < |x| && i < |encoded| => SubGlweInt(ctTy, encoded[i], x[i]));
    rTy := loop.accType;
  }

  /**
   * SubEintIntOpPattern: `k` is negated by `arith.muli k, -1` at its own width, then encoded, and
   * out[i] = add_glwe_int(x[i], encode(-k)[i]).
   */
  method LowerSubEintInt(xTy: Type, x: seq<Ciphertext>, w: nat, k: int, kWidth: nat, p: CrtParams)
    returns (rTy: Type, r: seq<Ciphertext>)
    requires IsLoweredScalar(xTy, x, w, p)
    requires InSignedRange(k, kWidth) && kWidth < 64
    ensures rTy == xTy && |r| == p.nMods
    ensures forall i :: 0 <= i < p.nMods ==>
      r[i] == AddGlweInt(Glwe(-1, -1, -1, w), x[i], CrtEncoded(NegateAtWidth(k, kWidth), p.mods, p.modsProd, i))
  {
    var negative := NegateAtWidth(k, kWidth);
    var encoded := WritePlaintextCrtEncoding(negative, kWidth, p);
    var ctTy := CiphertextScalarType(xTy, p.nMods);
    var loop := WriteUnaryTensorLoop(xTy, p);
    r := RunUnaryTensorLoop(loop, (i: nat) requires i < |x| && i < |encoded| => AddGlweInt(ctTy, x[i], encoded[i]));
    rTy := loop.accType;
  }

  /** AddEintOpPattern: out[i] = add_glwe(x[i], y[i]). */
  method LowerAddEint(xTy: Type, x: seq<Ciphertext>, y: seq<Ciphertext>, w: nat, p: CrtParams)
    returns (rTy: Type, r: seq<Ciphertext>)
    requires IsLoweredScalar(xTy, x, w, p) && |y| == p.nMods
    ensures rTy == xTy && |r| == p.nMods
    ensures forall i :: 0 <= i < p.nMods ==> r[i] == AddGlwe(Glwe(-1, -1, -1, w), x[i], y[i])
  {
    var ctTy := CiphertextScalarType(xTy, p.nMods);
    var loop := WriteUnaryTensorLoop(xTy, p);
    r := RunUnaryTensorLoop(loop, (i: nat) requires i < |x| && i < |y| => AddGlwe(ctTy, x[i], y[i]));
    rTy := loop.accType;
  }

  /** SubEintOpPattern: out[i] = add_glwe(x[i], neg_glwe(y[i])). */
  method LowerSubEint(xTy: Type, x: seq<Ciphertext>, y: seq<Ciphertext>, w: nat, p: CrtParams)
    returns (rTy: Type, r: seq<Ciphertext>)
    requires IsLoweredScalar(xTy, x, w, p) && |y| == p.nMods
    ensures rTy == xTy && |r| == p.nMods
    ensures forall i :: 0 <= i < p.nMods ==>
      r[i] == AddGlwe(Glwe(-1, -1, -1, w), x[i], NegGlwe(Glwe(-1, -1, -1, w), y[i]))
  {
    var ctTy := CiphertextScalarType(xTy, p.nMods);
    var loop := WriteUnaryTensorLoop(xTy, p);
    r := RunUnaryTensorLoop(loop, (i: nat) requires i < |x| && i < |y| => AddGlwe(ctTy, x[i], NegGlwe(ctTy, y[i])));
    rTy := loop.accType;
  }

  /** NegEintOpPattern: out[i] = neg_glwe(x[i]). */
  method LowerNegEint(xTy: Type, x: seq<Ciphertext>, w: nat, p: CrtParams)
    returns (rTy: Type, r: seq<Ciphertext>)
    requires IsLoweredScalar(xTy, x, w, p)
    ensures rTy == xTy && |r| == p.nMods
    ensures forall i :: 0 <= i < p.nMods ==> r[i] == NegGlwe(Glwe(-1, -1, -1, w), x[i])
  {
    var ctTy := CiphertextScalarType(xTy, p.nMods);
    var loop := WriteUnaryTensorLoop(xTy, p);
    r := RunUnaryTensorLoop(loop, (i: nat) requires i < |x| => NegGlwe(ctTy, x[i]));
    rTy := loop.accType;
  }

  /**
   * MulEintIntOpPattern: the cleartext is only sign-extended to i64 (no CRT encoding), and the
   * same cleartext multiplies every residue: out[i] = mul_glwe_int(x[i], k).
   */
  method LowerMulEintInt(xTy: Type, x: seq<Ciphertext>, w: nat, k: int, kWidth: nat, p: CrtParams)
    returns (rTy: Type, r: seq<Ciphertext>)
    requires IsLoweredScalar(xTy, x, w, p)
    requires InSignedRange(k, kWidth) && kWidth < 64
    ensures rTy == xTy && |r| == p.nMods
    ensures forall i :: 0 <= i < p.nMods ==> r[i] == MulGlweInt(Glwe(-1, -1, -1, w), x[i], k)
  {
    var cleartext := k;  // arith.extsi to i64 keeps the signed value
    var ctTy := CiphertextScalarType(xTy, p.nMods);
    var loop := WriteUnaryTensorLoop(xTy, p);
    r := RunUnaryTensorLoop(loop, (i: nat) requires i < |x| => MulGlweInt(ctTy, x[i], cleartext));
    rTy := loop.accType;
  }

  /** The value an `IntegerAttr` of type i32 holds when built from a wider integer. */
  function ToI32(x: int): (r: int)
    ensures InSignedRange(r, 32)
    ensures InSignedRange(x, 32) ==> r == x
  {
    if InSignedRange(x, 32) then WrapSignedOfRange(x, 32); WrapSigned(x, 32) else WrapSigned(x, 32)
  }

  /** The two ops ApplyLookupTableEintOpPattern writes: the LUT encoder and one whole-word PBS. */
  datatype WopPbsLowering = WopPbsLowering(
    lutType: Type,
    lut: seq<int>,
    mods: seq<int>,
    bits: seq<int>,
    polynomialSize: int,
    modsProd: int,
    isSigned: bool,
    operand: seq<Ciphertext>,
    resultType: Type,
    cryptoParams: seq<int>,
    trailingArrayAttr: seq<int>)

  /** ApplyLookupTableEintOpPattern (structural only). */
  function LowerApplyLookupTable(inputType: Type, resultType: Type, x: seq<Ciphertext>, lut: seq<int>, p: CrtParams)
    : (r: WopPbsLowering)
    requires inputType.EncryptedInt? && resultType.EncryptedInt?
    ensures r.resultType == RankedTensor([p.nMods as int], Glwe(-1, -1, -1, resultType.width))
    ensures r.lutType == RankedTensor([p.lutSize as int], Builtin("i64"))
    ensures r.isSigned == inputType.signed
    ensures r.lut == lut && r.operand == x && r.mods == p.mods && r.bits == p.bits
    ensures InSignedRange(p.modsProd, 32) ==> r.modsProd == p.modsProd
    ensures InSignedRange(p.polynomialSize, 32) ==> r.polynomialSize == p.polynomialSize
    ensures |r.cryptoParams| == 10 && forall i :: 0 <= i < 10 ==> r.cryptoParams[i] == -1
    ensures r.trailingArrayAttr == []
  {
    WopPbsLowering(
      RankedTensor([p.lutSize], Builtin("i64")),
      lut, p.mods, p.bits, ToI32(p.polynomialSize), ToI32(p.modsProd),
      inputType.signed, x, Convert(resultType, p.nMods),
      seq(10, _ => -1), [])
  }
}
