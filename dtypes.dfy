/**
 * Data-type helpers of the Python front end (dtypes_helpers.py): the `value_is_*` predicates,
 * the join of two base data types (`find_type_to_hold_both_lossy`), the `mix_*` functions that
 * combine two values, and the data type given to a Python constant.
 *
 * A failing Python `assert` is the `AssertionError` outcome; the explicit `raise` is `ValueError`.
 */
module DTypes {
  import opened Wrappers
  import opened Numeric

  /** BaseDataType: Integer(bit_width, is_signed), Float(bit_width), or any other subclass. */
  datatype DataType = Integer(bitWidth: nat, isSigned: bool) | Float(bitWidth: nat) | OtherDataType

  /** The Python class of a value: ScalarValue, TensorValue (with its shape), or another BaseValue subclass. */
  datatype ValueClass = ScalarClass | TensorClass(shape: seq<nat>) | OtherClass(name: string)

  /** BaseValue: its class, its data type and whether it is encrypted (`is_clear` is the negation). */
  datatype Value = Value(cls: ValueClass, dataType: DataType, isEncrypted: bool)

  datatype PyError = AssertionError | ValueError

  // ---------------------------------------------------------------------------------------------
  // value_is_* predicates
  // ---------------------------------------------------------------------------------------------

  /** `isinstance(v, ScalarValue)` with an `Integer` data type. */
  predicate ValueIsScalarInteger(v: Value) {
    v.cls.ScalarClass? && v.dataType.Integer?
  }

  /** A clear scalar integer: `is_clear`, the negation of `is_encrypted`. */
  predicate ValueIsClearScalarInteger(v: Value) {
    ValueIsScalarInteger(v) && !v.isEncrypted
  }

  /** Every scalar integer is either encrypted or clear, never both. */
  predicate ValueIsEncryptedScalarInteger(v: Value)
    ensures ValueIsEncryptedScalarInteger(v) <==> ValueIsScalarInteger(v) && !ValueIsClearScalarInteger(v)
  {
    ValueIsScalarInteger(v) && v.isEncrypted
  }

  predicate ValueIsEncryptedScalarUnsignedInteger(v: Value) {
    ValueIsEncryptedScalarInteger(v) && !v.dataType.isSigned
  }

  /** `isinstance(v, TensorValue)` with an `Integer` data type; never a scalar integer. */
  predicate ValueIsTensorInteger(v: Value)
    ensures ValueIsTensorInteger(v) ==> !ValueIsScalarInteger(v) && exists w, signed :: v.dataType == Integer(w, signed)
  {
    v.cls.TensorClass? && v.dataType.Integer?
  }

  predicate ValueIsClearTensorInteger(v: Value) {
    ValueIsTensorInteger(v) && !v.isEncrypted
  }

  /** Every tensor integer is either encrypted or clear, never both. */
  predicate ValueIsEncryptedTensorInteger(v: Value)
    ensures ValueIsEncryptedTensorInteger(v) <==> ValueIsTensorInteger(v) && !ValueIsClearTensorInteger(v)
  {
    ValueIsTensorInteger(v) && v.isEncrypted
  }

  predicate ValueIsEncryptedTensorUnsignedInteger(v: Value) {
    ValueIsEncryptedTensorInteger(v) && !v.dataType.isSigned
  }

  /** An integer value is exactly one of encrypted or clear, and a value is never both scalar and tensor. */
  lemma ValuePredicatesPartition(v: Value)
    ensures ValueIsScalarInteger(v) <==> ValueIsEncryptedScalarInteger(v) || ValueIsClearScalarInteger(v)
    ensures !(ValueIsEncryptedScalarInteger(v) && ValueIsClearScalarInteger(v))
    ensures ValueIsTensorInteger(v) <==> ValueIsEncryptedTensorInteger(v) || ValueIsClearTensorInteger(v)
    ensures !(ValueIsEncryptedTensorInteger(v) && ValueIsClearTensorInteger(v))
    ensures !(ValueIsScalarInteger(v) && ValueIsTensorInteger(v))
    ensures ValueIsEncryptedScalarUnsignedInteger(v) ==> ValueIsEncryptedScalarInteger(v)
    ensures ValueIsEncryptedTensorUnsignedInteger(v) ==> ValueIsEncryptedTensorInteger(v)
  {
  }

  // ---------------------------------------------------------------------------------------------
  // find_type_to_hold_both_lossy
  // ---------------------------------------------------------------------------------------------

  predicate IsBaseDataType(d: DataType) {
    d.Integer? || d.Float?
  }

  function Max(a: nat, b: nat): (r: nat)
    ensures r >= a && r >= b && (r == a || r == b)
  {
    if a >= b then a else b
  }

  /** The data type able to hold values of both inputs (lossily where floats are involved). */
  function FindTypeToHoldBothLossy(d1: DataType, d2: DataType): (r: Result<DataType, PyError>)
    ensures r.Failure? <==> !IsBaseDataType(d1) || !IsBaseDataType(d2)
    ensures r.Failure? ==> r.error == AssertionError
  {
    if !IsBaseDataType(d1) || !IsBaseDataType(d2) then Failure(AssertionError)
    else if d1.Integer? && d2.Integer? then
      var maxBits := Max(d1.bitWidth, d2.bitWidth);
      if d1.isSigned && d2.isSigned then Success(Integer(maxBits, true))
      else if !d1.isSigned && !d2.isSigned then Success(Integer(maxBits, false))
      else if d1.isSigned && !d2.isSigned then
        // the unsigned side needs one more bit once it carries a sign
        if d2.bitWidth >= d1.bitWidth then Success(Integer(d2.bitWidth + 1, true))
        else Success(Integer(d1.bitWidth, true))
      else
        if d1.bitWidth >= d2.bitWidth then Success(Integer(d1.bitWidth + 1, true))
        else Success(Integer(d2.bitWidth, true))
    else if d1.Float? && d2.Float? then Success(Float(Max(d1.bitWidth, d2.bitWidth)))
    else if d1.Float? then Success(d1)
    else Success(d2)
  }

  /** The integers an Integer data type represents: two's complement when signed. */
  predicate Represents(d: DataType, x: int)
    requires d.Integer?
  {
    if !d.isSigned then 0 <= x < Pow2(d.bitWidth)
    else if d.bitWidth == 0 then false
    else -(Pow2(d.bitWidth - 1) as int) <= x < Pow2(d.bitWidth - 1)
  }

  /**
   * The integer join: signed iff either input is signed; the maximum width when the signedness
   * agrees; with mixed signedness the unsigned width plus one when it is at least the signed
   * width, and the signed width otherwise.
   */
  lemma IntegerJoin(d1: DataType, d2: DataType)
    requires d1.Integer? && d2.Integer?
    ensures var r := FindTypeToHoldBothLossy(d1, d2);
      && r.Success? && r.value.Integer?
      && r.value.isSigned == (d1.isSigned || d2.isSigned)
      && r.value.bitWidth >= d1.bitWidth && r.value.bitWidth >= d2.bitWidth
      && (d1.isSigned == d2.isSigned ==> r.value.bitWidth == Max(d1.bitWidth, d2.bitWidth))
      && (d1.isSigned && !d2.isSigned ==>
            r.value.bitWidth == if d2.bitWidth >= d1.bitWidth then d2.bitWidth + 1 else d1.bitWidth)
      && (!d1.isSigned && d2.isSigned ==>
            r.value.bitWidth == if d1.bitWidth >= d2.bitWidth then d1.bitWidth + 1 else d2.bitWidth)
  {
  }

  /** The join does not depend on the order of its arguments. */
  lemma JoinSymmetric(d1: DataType, d2: DataType)
    ensures FindTypeToHoldBothLossy(d1, d2) == FindTypeToHoldBothLossy(d2, d1)
  {
  }

  /** Joining a base data type with itself gives it back. */
  lemma JoinIdempotent(d: DataType)
    requires IsBaseDataType(d)
    ensures FindTypeToHoldBothLossy(d, d) == Success(d)
  {
  }

  /** Two floats give the wider float; exactly one float gives that float. */
  lemma FloatJoin(d1: DataType, d2: DataType)
    requires IsBaseDataType(d1) && IsBaseDataType(d2) && (d1.Float? || d2.Float?)
    ensures d1.Float? && d2.Float? ==> FindTypeToHoldBothLossy(d1, d2) == Success(Float(Max(d1.bitWidth, d2.bitWidth)))
    ensures d1.Float? && d2.Integer? ==> FindTypeToHoldBothLossy(d1, d2) == Success(d1)
    ensures d1.Integer? && d2.Float? ==> FindTypeToHoldBothLossy(d1, d2) == Success(d2)
  {
  }

  /** The integer join holds every integer that either input holds: it is lossless on integers. */
  lemma IntegerJoinHoldsBoth(d1: DataType, d2: DataType, x: int)
    requires d1.Integer? && d2.Integer?
    requires Represents(d1, x) || Represents(d2, x)
    ensures FindTypeToHoldBothLossy(d1, d2).Success?
    ensures Represents(FindTypeToHoldBothLossy(d1, d2).value, x)
  {
    if Represents(d1, x) {
      JoinHoldsLeft(d1, d2, x);
    } else {
      JoinHoldsLeft(d2, d1, x);
      JoinSymmetric(d1, d2);
    }
  }

  lemma JoinHoldsLeft(d1: DataType, d2: DataType, x: int)
    requires d1.Integer? && d2.Integer? && Represents(d1, x)
    ensures FindTypeToHoldBothLossy(d1, d2).Success?
    ensures Represents(FindTypeToHoldBothLossy(d1, d2).value, x)
  {
    var r := FindTypeToHoldBothLossy(d1, d2).value;
    IntegerJoin(d1, d2);
    if d1.isSigned {
      // r is signed and at least as wide
      Pow2Monotonic(d1.bitWidth - 1, r.bitWidth - 1);
    } else if r.isSigned {
      // d1 unsigned, d2 signed: r is wider than d1 by at least one bit
      assert r.bitWidth >= d1.bitWidth + 1;
      Pow2Monotonic(d1.bitWidth, r.bitWidth - 1);
    } else {
      Pow2Monotonic(d1.bitWidth, r.bitWidth);
    }
  }

  // ---------------------------------------------------------------------------------------------
  // mix_*_determine_holding_dtype
  // ---------------------------------------------------------------------------------------------

  /** mix_scalar_values_determine_holding_dtype. */
  function MixScalarValues(v1: Value, v2: Value): (r: Result<Value, PyError>)
    ensures r.Success? <==> v1.cls.ScalarClass? && v2.cls.ScalarClass? && FindTypeToHoldBothLossy(v1.dataType, v2.dataType).Success?
    ensures r.Success? ==>
      && r.value.cls == ScalarClass
      && r.value.dataType == FindTypeToHoldBothLossy(v1.dataType, v2.dataType).value
      && r.value.isEncrypted == (v1.isEncrypted || v2.isEncrypted)
    ensures r.Failure? ==> r.error == AssertionError
  {
    if !v1.cls.ScalarClass? || !v2.cls.ScalarClass? then Failure(AssertionError)
    else
      var holdingType :- FindTypeToHoldBothLossy(v1.dataType, v2.dataType);
      if v1.isEncrypted || v2.isEncrypted then Success(Value(ScalarClass, holdingType, true))
      else Success(Value(ScalarClass, holdingType, false))
  }

  /** mix_tensor_values_determine_holding_dtype: the shapes must agree and are kept. */
  function MixTensorValues(v1: Value, v2: Value): (r: Result<Value, PyError>)
    ensures r.Success? <==>
      && v1.cls.TensorClass? && v2.cls.TensorClass? && v1.cls.shape == v2.cls.shape
      && FindTypeToHoldBothLossy(v1.dataType, v2.dataType).Success?
    ensures r.Success? ==>
      && r.value.cls == TensorClass(v1.cls.shape)
      && r.value.dataType == FindTypeToHoldBothLossy(v1.dataType, v2.dataType).value
      && r.value.isEncrypted == (v1.isEncrypted || v2.isEncrypted)
    ensures r.Failure? ==> r.error == AssertionError
  {
    if !v1.cls.TensorClass? || !v2.cls.TensorClass? then Failure(AssertionError)
    else if v1.cls.shape != v2.cls.shape then Failure(AssertionError)
    else
      var holdingType :- FindTypeToHoldBothLossy(v1.dataType, v2.dataType);
      var shape := v1.cls.shape;
      if v1.isEncrypted || v2.isEncrypted then Success(Value(TensorClass(shape), holdingType, true))
      else Success(Value(TensorClass(shape), holdingType, false))
  }

  /** `value1.__class__ == value2.__class__`: the shape of a tensor is not part of its class. */
  predicate SameClass(c1: ValueClass, c2: ValueClass) {
    match (c1, c2)
    case (ScalarClass, ScalarClass) => true
    case (TensorClass(_), TensorClass(_)) => true
    case (OtherClass(n1), OtherClass(n2)) => n1 == n2
    case _ => false
  }

  /** mix_values_determine_holding_dtype. */
  function MixValues(v1: Value, v2: Value): (r: Result<Value, PyError>)
    ensures !SameClass(v1.cls, v2.cls) ==> r == Failure(AssertionError)
    ensures SameClass(v1.cls, v2.cls) && v1.cls.OtherClass? ==> r == Failure(ValueError)
    ensures v1.cls.ScalarClass? ==> r == MixScalarValues(v1, v2)
    ensures v1.cls.TensorClass? ==> r == MixTensorValues(v1, v2)
  {
    if !SameClass(v1.cls, v2.cls) then Failure(AssertionError)
    else if v1.cls.ScalarClass? && v2.cls.ScalarClass? then MixScalarValues(v1, v2)
    else if v1.cls.TensorClass? && v2.cls.TensorClass? then MixTensorValues(v1, v2)
    else Failure(ValueError)
  }

  /**
   * Mixing keeps the class: two integer scalars (tensors of one shape) give an integer scalar
   * (tensor of that shape), encrypted iff either input is; two unsigned encrypted inputs give an
   * unsigned encrypted result.
   */
  lemma MixIntegerValues(v1: Value, v2: Value)
    requires (ValueIsScalarInteger(v1) && ValueIsScalarInteger(v2))
          || (ValueIsTensorInteger(v1) && ValueIsTensorInteger(v2) && v1.cls.shape == v2.cls.shape)
    ensures MixValues(v1, v2).Success?
    ensures var m := MixValues(v1, v2).value;
      && m.cls == v1.cls
      && (ValueIsScalarInteger(v1) ==>
            (ValueIsEncryptedScalarInteger(m) <==> v1.isEncrypted || v2.isEncrypted)
            && (ValueIsClearScalarInteger(m) <==> ValueIsClearScalarInteger(v1) && ValueIsClearScalarInteger(v2))
            && (ValueIsEncryptedScalarUnsignedInteger(v1) && ValueIsEncryptedScalarUnsignedInteger(v2) ==>
                  ValueIsEncryptedScalarUnsignedInteger(m)))
      && (ValueIsTensorInteger(v1) ==>
            (ValueIsEncryptedTensorInteger(m) <==> v1.isEncrypted || v2.isEncrypted)
            && (ValueIsClearTensorInteger(m) <==> ValueIsClearTensorInteger(v1) && ValueIsClearTensorInteger(v2))
            && (ValueIsEncryptedTensorUnsignedInteger(v1) && ValueIsEncryptedTensorUnsignedInteger(v2) ==>
                  ValueIsEncryptedTensorUnsignedInteger(m)))
  {
    IntegerJoin(v1.dataType, v2.dataType);
  }

  // ---------------------------------------------------------------------------------------------
  // get_base_data_type_for_python_constant_data
  // ---------------------------------------------------------------------------------------------

  /** A Python constant: an int (a bool counts as one), a float, or anything else. */
  datatype PyConstant = IntConstant(value: int) | FloatConstant | OtherConstant

  /**
   * The data type of a constant. `bitsToRepresent` is get_bits_to_represent_value_as_integer,
   * taken as a parameter because its definition is not part of this model.
   */
  function BaseDataTypeForConstant(c: PyConstant, bitsToRepresent: (int, bool) -> nat): (r: Result<DataType, PyError>)
    ensures c.OtherConstant? <==> r.Failure?
    ensures c.IntConstant? ==>
      r.Success? && r.value.Integer? && (r.value.isSigned <==> c.value < 0)
      && r.value.bitWidth == bitsToRepresent(c.value, c.value < 0)
    ensures c.FloatConstant? ==> r == Success(Float(64))
  {
    match c
    case IntConstant(v) =>
      var isSigned := v < 0;
      Success(Integer(bitsToRepresent(v, isSigned), isSigned))
    case FloatConstant => Success(Float(64))
    case OtherConstant => Failure(AssertionError)
  }
}
