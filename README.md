# CRT lowering, matmul tiling, data-type joining and stream extraction, in Dafny

This project models four pieces of the Concrete FHE compiler and its Python front end and
proves properties of them.

- **CRT lowering** (`compiler/lib/Conversion/FHEToTFHECrt/FHEToTFHECrt.cpp`; modules `CrtTypes`,
  `CrtArith`, `CrtTensor`). The type converter turns an encrypted integer into a vector of
  `nMods` GLWE ciphertexts, one per CRT modulus. An encrypted tensor gains one trailing dimension
  of size `nMods`. The arithmetic rewrite rules become a `scf.for` over the residues. The tensor
  adapters (`tensor.extract`, `tensor.insert`, `extract_slice`, `insert_slice`, `from_elements`,
  `collapse_shape`/`expand_shape`) gain one CRT entry. The legality callbacks of the conversion
  target are modelled as well. Ciphertext ops are symbolic terms, so the rules are proved to
  apply the right op to the right residue. Tensors are given a meaning (coordinates to elements),
  and the slice adapters are proved to commit to the original indexing: slicing the lowered
  tensor reads the residues of the original slice.
- **Matmul tiling** (`compiler/lib/Dialect/HLFHELinalg/Transforms/Tiling.cpp`; module `Tiling`).
  This covers the guards of `MatMulTilingPattern`, `buildLoopNestWithLoopCarriedDependency`, and
  the tile-by-tile computation of the generated nest. That computation is proved equal to the
  untiled product over integer matrices. It also covers the marker pass and the marker cleanup.
- **Data-type joining** (`concrete/common/data_types/dtypes_helpers.py`; module `DTypes`). This
  covers the `value_is_*` predicates, `find_type_to_hold_both_lossy`, the `mix_*` functions, and
  the data type of a Python constant. A failing Python `assert` is an `AssertionError` result.
- **Stream extraction** (`compiler/lib/Conversion/ExtractSDFGOps/ExtractSDFGOps.cpp`; module
  `Sdfg`). This covers `determineStreamMappingKind` and the `makeStream` counter. The pass state
  is a class whose methods follow the `mapValueToStreams` lambda and the loop of
  `runOnOperation`. Its invariant ties the three mappings to the streams made and to the
  mapping kinds, and the host-side gets and puts to the values they transfer.

`wrappers.dfy` holds `Option`/`Result`. `numeric.dfy` holds division facts the proofs use.

## Model

| member | source | states |
|---|---|---|
| CrtTypes.ConvertEncrypted | compiler/lib/Conversion/FHEToTFHECrt/FHEToTFHECrt.cpp:42-48 | an encrypted integer of width w becomes a 1-D tensor of shape [crtLength] whose element is a ciphertext of width w |
| CrtTypes.MaybeConvertEncryptedTensor | compiler/lib/Conversion/FHEToTFHECrt/FHEToTFHECrt.cpp:53-70 | a tensor of encrypted integers keeps every dimension and gains exactly one trailing crtLength; any other ranked tensor is returned unchanged |
| CrtTypes.MaybeConvertEncrypted | compiler/lib/Conversion/FHEToTFHECrt/FHEToTFHECrt.cpp:74-80 | only encrypted integers are converted; every other type is returned unchanged |
| CrtTypes.Convert | compiler/lib/Conversion/FHEToTFHECrt/FHEToTFHECrt.cpp:83-110 | whatever the converter returns is lowered: no encrypted integer at the top, as a tensor element, or under future/pointer wrappers |
| CrtTypes.FixedPointIffLowered | compiler/lib/Conversion/FHEToTFHECrt/FHEToTFHECrt.cpp:83-110 | a type is a fixed point of the converter if and only if it is lowered (independent characterisation, both directions) |
| CrtTypes.ConvertIdempotent | compiler/lib/Conversion/FHEToTFHECrt/FHEToTFHECrt.cpp:83-110 | converting twice is the same as converting once |
| CrtTypes.ConvertShapes | compiler/lib/Conversion/FHEToTFHECrt/FHEToTFHECrt.cpp:87-103 | the full shape rule: scalar to [nMods] ciphertexts, encrypted tensor gains a trailing nMods, future/pointer converted inside, everything else unchanged |
| CrtTypes.AllLegalIffLowered | compiler/lib/Conversion/FHEToTFHECrt/FHEToTFHECrt.cpp:877-907 | a list of types is legal for the converter exactly when every type in it is lowered |
| CrtTypes.Legal | compiler/lib/Conversion/FHEToTFHECrt/FHEToTFHECrt.cpp:842-907 | an FHE op is never legal; TFHE, arith, call and unlisted ops always are; generate, for and func are legal iff their operand, result and region argument types are lowered; insert/extract/yield, func.constant and the type-legal ops iff their operand and result types are lowered (for func.constant, the inputs and results of the referenced function type) |
| CrtTypes.ConvertAll | compiler/lib/Conversion/FHEToTFHECrt/FHEToTFHECrt.cpp:83-110 | converting a range of types keeps its length and converts each type in place |
| CrtTypes.Reinstantiate | compiler/lib/Conversion/FHEToTFHECrt/FHEToTFHECrt.cpp:909-1005 | re-creating an op with converted types keeps its kind and makes every non-FHE op legal |
| CrtTypes.ConvertAllLegal | compiler/lib/Conversion/FHEToTFHECrt/FHEToTFHECrt.cpp:877-907 | a converted range of types is always legal |
| CrtArith.WrapSigned | compiler/lib/Conversion/FHEToTFHECrt/FHEToTFHECrt.cpp:293-302 | two's-complement wrap-around to w bits lands in the signed w-bit range |
| CrtArith.NegateAtWidth | compiler/lib/Conversion/FHEToTFHECrt/FHEToTFHECrt.cpp:293-302 | `arith.muli k, -1` at k's width is -k, except that the minimum value is its own negation; the result stays in range |
| CrtArith.NegationWraps | compiler/lib/Conversion/FHEToTFHECrt/FHEToTFHECrt.cpp:293-302 | wrapping the exact product k * -1 to the width agrees with that negation rule |
| CrtArith.WrapSignedOfRange | compiler/lib/Conversion/FHEToTFHECrt/FHEToTFHECrt.cpp:293-302 | wrapping a value already in range leaves it unchanged |
| CrtArith.WrapSignedOfMin | compiler/lib/Conversion/FHEToTFHECrt/FHEToTFHECrt.cpp:293-302 | 2^(w-1) wraps to the minimum value -2^(w-1) |
| CrtArith.WritePlaintextCrtEncoding | compiler/lib/Conversion/FHEToTFHECrt/FHEToTFHECrt.cpp:165-177 | the encoding has nMods entries, and entry i is residue i of the sign-extended value under the parameter moduli |
| CrtArith.WriteUnaryTensorLoop | compiler/lib/Conversion/FHEToTFHECrt/FHEToTFHECrt.cpp:138-162 | the loop runs from 0 to nMods by 1 over a freshly allocated accumulator of the operand's converted type |
| CrtArith.RunUnaryTensorLoop | compiler/lib/Conversion/FHEToTFHECrt/FHEToTFHECrt.cpp:145-161 | after the loop, position i of the accumulator holds the body's value at i, for every i |
| CrtArith.CiphertextScalarTypeOfConverted | compiler/lib/Conversion/FHEToTFHECrt/FHEToTFHECrt.cpp:204-207 | the ciphertext type the rules read from the (already converted) operand is the width-w ciphertext |
| CrtArith.LowerAddEintInt | compiler/lib/Conversion/FHEToTFHECrt/FHEToTFHECrt.cpp:184-228 | output residue i is add_glwe_int of operand residue i and residue i of the encoded cleartext; the type is kept |
| CrtArith.LowerSubIntEint | compiler/lib/Conversion/FHEToTFHECrt/FHEToTFHECrt.cpp:231-275 | output residue i is sub_glwe_int of the encoded cleartext's residue i and operand residue i (no negation) |
| CrtArith.LowerSubEintInt | compiler/lib/Conversion/FHEToTFHECrt/FHEToTFHECrt.cpp:278-332 | output residue i adds residue i of the encoding of k negated at its width |
| CrtArith.LowerAddEint | compiler/lib/Conversion/FHEToTFHECrt/FHEToTFHECrt.cpp:335-375 | output residue i is add_glwe of the two operands' residues i |
| CrtArith.LowerSubEint | compiler/lib/Conversion/FHEToTFHECrt/FHEToTFHECrt.cpp:378-420 | output residue i is add_glwe of x[i] and neg_glwe of y[i] |
| CrtArith.LowerNegEint | compiler/lib/Conversion/FHEToTFHECrt/FHEToTFHECrt.cpp:423-459 | output residue i is neg_glwe of x[i] |
| CrtArith.LowerMulEintInt | compiler/lib/Conversion/FHEToTFHECrt/FHEToTFHECrt.cpp:462-504 | output residue i is mul_glwe_int of x[i] and the sign-extended cleartext, the same cleartext for every residue |
| CrtArith.ToI32 | compiler/lib/Conversion/FHEToTFHECrt/FHEToTFHECrt.cpp:525-543 | an i32 attribute holds a value in the signed 32-bit range, and exactly the input when it fits |
| CrtArith.LowerApplyLookupTable | compiler/lib/Conversion/FHEToTFHECrt/FHEToTFHECrt.cpp:507-548 | the lookup table is expanded to a [lutSize] i64 tensor and a single PBS produces [nMods] ciphertexts of the result width; the table, operand, moduli, bits and signedness are passed through, the ten crypto parameters are -1 and the trailing array attribute is empty |
| CrtTensor.EvalAll | compiler/lib/Conversion/FHEToTFHECrt/FHEToTFHECrt.cpp:577-589 | evaluating a fold-result list keeps its length and evaluates each entry |
| CrtTensor.LowerAt | compiler/lib/Conversion/FHEToTFHECrt/FHEToTFHECrt.cpp:53-70 | the lowered tensor holds residue j of element x at coordinate x + [j] |
| CrtTensor.AppendCrtEntry | compiler/lib/Conversion/FHEToTFHECrt/FHEToTFHECrt.cpp:773-782 | the offset, size and stride lists keep their entries as a prefix and gain exactly (0, nMods, 1) |
| CrtTensor.LowerSliceOp | compiler/lib/Conversion/FHEToTFHECrt/FHEToTFHECrt.cpp:759-833 | extract_slice and insert_slice are rebuilt on the same operands (source, destination and dynamic offsets, sizes and strides), their static lists gain the CRT entry, and their result is the converted result type |
| CrtTensor.ExtractSliceLoweringCommutes | compiler/lib/Conversion/FHEToTFHECrt/FHEToTFHECrt.cpp:759-795 | reading the lowered slice at c + [j] gives residue j of the original slice at c; c + [j] is in the lowered slice iff c is in the original and j < nMods |
| CrtTensor.SlicePreimageAppend | compiler/lib/Conversion/FHEToTFHECrt/FHEToTFHECrt.cpp:797-833 | a destination coordinate x + [j] is written by the lowered insert_slice exactly when x is written by the original, from slice coordinate c + [j] |
| CrtTensor.InsertSliceLoweringCommutes | compiler/lib/Conversion/FHEToTFHECrt/FHEToTFHECrt.cpp:797-833 | after the lowered insert_slice, coordinate x + [j] holds residue j of what the original insert_slice leaves at x |
| CrtTensor.BuildElementSlice | compiler/lib/Conversion/FHEToTFHECrt/FHEToTFHECrt.cpp:577-589 | the lists have rank + 1 entries: the indices followed by 0, sizes 1 followed by nMods, strides all 1 |
| CrtTensor.LowerTensorExtract | compiler/lib/Conversion/FHEToTFHECrt/FHEToTFHECrt.cpp:551-599 | tensors whose element is neither unsigned encrypted nor a ciphertext are left alone; otherwise a rank-reduced extract_slice of the tensor operand (line 594) with the element lists is built, whose result for an encrypted element is [nMods] ciphertexts of its width |
| CrtTensor.LowerTensorInsert | compiler/lib/Conversion/FHEToTFHECrt/FHEToTFHECrt.cpp:602-647 | the same guard; otherwise an insert_slice of the scalar operand into the destination operand (line 641) with the element lists is built |
| CrtTensor.ElementSliceEvaluates | compiler/lib/Conversion/FHEToTFHECrt/FHEToTFHECrt.cpp:577-589 | the built lists evaluate to the indices' values followed by 0, sizes 1...1 nMods, strides 1 |
| CrtTensor.LoweredExtractReadsResidues | compiler/lib/Conversion/FHEToTFHECrt/FHEToTFHECrt.cpp:551-599 | position j of the lowered extract at idx lies inside the slice exactly when 0 <= j < nMods, and it reads residue j of the element at idx |
| CrtTensor.LoweredInsertThenExtract | compiler/lib/Conversion/FHEToTFHECrt/FHEToTFHECrt.cpp:551-647 | extracting at idx after a lowered insert at idx gives back the inserted residues |
| CrtTensor.LoweredInsertLeavesOthers | compiler/lib/Conversion/FHEToTFHECrt/FHEToTFHECrt.cpp:602-647 | the lowered insert at idx leaves every residue of every other element unchanged |
| CrtTensor.AppendCrtGroup | compiler/lib/Conversion/FHEToTFHECrt/FHEToTFHECrt.cpp:742-748 | the old reassociation groups are kept in order and one singleton group [rank of the converted high-rank type - 1] is appended |
| CrtTensor.AppendCrtGroupValid | compiler/lib/Conversion/FHEToTFHECrt/FHEToTFHECrt.cpp:725-757 | the extended reassociation is valid for the rank one higher |
| CrtTensor.CollapsedShape | compiler/lib/Conversion/FHEToTFHECrt/FHEToTFHECrt.cpp:725-757 | a collapse yields one dimension per group |
| CrtTensor.AppendCrtGroupShapes | compiler/lib/Conversion/FHEToTFHECrt/FHEToTFHECrt.cpp:725-757 | collapsing the converted shape with the extended groups gives the original collapsed shape followed by nMods |
| CrtTensor.Unravel | compiler/lib/Conversion/FHEToTFHECrt/FHEToTFHECrt.cpp:697-708 | the row-major unravelling has one coordinate per dimension |
| CrtTensor.UnravelInBox | compiler/lib/Conversion/FHEToTFHECrt/FHEToTFHECrt.cpp:697-708 | every unravelled coordinate lies inside the shape |
| CrtTensor.RavelUnravel | compiler/lib/Conversion/FHEToTFHECrt/FHEToTFHECrt.cpp:697-708 | below the element count, linearising the unravelled coordinate gives back the index |
| CrtTensor.UnravelInjective | compiler/lib/Conversion/FHEToTFHECrt/FHEToTFHECrt.cpp:697-708 | distinct element indices get distinct coordinates |
| CrtTensor.OffsetGenerator | compiler/lib/Conversion/FHEToTFHECrt/FHEToTFHECrt.cpp:697-708 | the descending remainder loop computes the row-major unravelling of index * multiplier over the converted shape |
| CrtTensor.LowerFromElements | compiler/lib/Conversion/FHEToTFHECrt/FHEToTFHECrt.cpp:650-721 | non-encrypted results are left alone; otherwise one insert_slice per element, in element order, threaded through one allocation of the converted type, with sizes 1...1 nMods, strides 1 and offsets the unravelled index * multiplier |
| CrtTensor.FromElementsCorrectedPlacement | compiler/lib/Conversion/FHEToTFHECrt/FHEToTFHECrt.cpp:697-717 | with multiplier nMods, element i is placed at its row-major coordinate followed by CRT offset 0, its slice stays inside the converted shape, and distinct elements get distinct offsets |
| CrtTensor.FromElementsAsWrittenOverruns | compiler/lib/Conversion/FHEToTFHECrt/FHEToTFHECrt.cpp:700 | with the written multiplier 5, nMods 3 and four elements, element 1 is placed at [1, 2] and its slice leaves the converted shape |
| Tiling.ReadTileSizes | compiler/lib/Dialect/HLFHELinalg/Transforms/Tiling.cpp:135-171 | declines exactly when the marker is present or tile-sizes is absent; proceeds exactly when tile-sizes is an array of three integer attributes, and then carries those three values; otherwise fails with the matching error |
| Tiling.CppRem | compiler/lib/Dialect/HLFHELinalg/Transforms/Tiling.cpp:203-204 | C++ `%` agrees with the mathematical remainder on a non-negative dividend and a positive divisor |
| Tiling.CheckShapes | compiler/lib/Dialect/HLFHELinalg/Transforms/Tiling.cpp:190-208 | a dynamic dimension fails with the static-shape error; the plan is produced exactly when the shapes are static, the sizes are non-zero and every C++ remainder is zero, and it records the sizes and N, M, K; a division by zero is reached only with a zero size; no other error arises |
| Tiling.MatchAsWritten | compiler/lib/Dialect/HLFHELinalg/Transforms/Tiling.cpp:135-208 | a decline or error while reading tile-sizes is reported as is; after a successful read, the op is tiled exactly when the shape checks pass on the read sizes, with the plan of those sizes and N, M, K, and the outcome is undefined only with a zero size |
| Tiling.Match | compiler/lib/Dialect/HLFHELinalg/Transforms/Tiling.cpp:135-208 | the corrected guard never reaches a division by zero |
| Tiling.MatchTiledIff | compiler/lib/Dialect/HLFHELinalg/Transforms/Tiling.cpp:135-208 | the pattern tiles exactly when tile-sizes holds three positive integers, the shapes are static and every dimension is a multiple of its tile size; the plan records those sizes and N, M, K |
| Tiling.MatchAgreesOnPositiveSizes | compiler/lib/Dialect/HLFHELinalg/Transforms/Tiling.cpp:135-208 | on positive tile sizes the corrected guard and the guard as written agree |
| Tiling.TileSizesOp | compiler/lib/Dialect/HLFHELinalg/Transforms/Tiling.cpp:140-148 | a matmul carrying the given tile-sizes array is well formed |
| Tiling.MatchAsWrittenNonPositiveTiles | compiler/lib/Dialect/HLFHELinalg/Transforms/Tiling.cpp:161-208 | as written, tile size 0 reaches `% 0` and tile size -2 is accepted; the corrected guard rejects both |
| Tiling.BuildLoopNest | compiler/lib/Dialect/HLFHELinalg/Transforms/Tiling.cpp:52-99 | loop i gets bounds lbs[i]..ubs[i] and step steps[i]; the carried values enter the outermost loop and are threaded through each loop's iteration arguments; every loop but the innermost yields the next loop's results; the body sees all induction variables, outermost first |
| Tiling.InnerMatMul | compiler/lib/Dialect/HLFHELinalg/Transforms/Tiling.cpp:259-269 | the per-tile matmul is T×U times U×V, well formed, and carries the marker |
| Tiling.InnerMatMulDeclined | compiler/lib/Dialect/HLFHELinalg/Transforms/Tiling.cpp:133-136 | the marked per-tile matmuls are declined, so tiling does not recurse |
| Tiling.RewriteMatMul | compiler/lib/Dialect/HLFHELinalg/Transforms/Tiling.cpp:130-305 | with the corrected guard: without a plan the op is not rewritten and the guard outcome is reported, with a stray zero-initialised C exactly when the failure came after tile-sizes was read with positive sizes (the shape and partial-tile checks run after C is created, lines 173-208); with a plan, three nested loops from 0 to (N, M, K) by (T, U, V) around the marked tile matmul |
| Tiling.MatMul | compiler/lib/Dialect/HLFHELinalg/Transforms/Tiling.cpp:112-114 | the product is an N×K matrix whose entry (i, j) is the dot product of row i of A and column j of B |
| Tiling.Zeros | compiler/lib/Dialect/HLFHELinalg/Transforms/Tiling.cpp:185-188 | C starts as an N×K matrix of zeros |
| Tiling.ExtractTile | compiler/lib/Dialect/HLFHELinalg/Transforms/Tiling.cpp:19-38 | a contiguous 2-D slice of size h×w at (r0, c0) with unit strides holds the entries at those offsets |
| Tiling.InsertTile | compiler/lib/Dialect/HLFHELinalg/Transforms/Tiling.cpp:277-291 | writing a T×V tile back at (i, k) replaces exactly that block and keeps every other entry |
| Tiling.AddTiles | compiler/lib/Dialect/HLFHELinalg/Transforms/Tiling.cpp:271-275 | add_eint on two tiles adds them entry by entry |
| Tiling.DotOfTiles | compiler/lib/Dialect/HLFHELinalg/Transforms/Tiling.cpp:246-251 | a dot product over two tiles is the dot product over the corresponding range of the whole matrices |
| Tiling.TileProduct | compiler/lib/Dialect/HLFHELinalg/Transforms/Tiling.cpp:258-264 | an entry of the product of the A tile at (i, j) and the B tile at (j, k) is the partial dot product over j..j+U |
| Tiling.TileStep | compiler/lib/Dialect/HLFHELinalg/Transforms/Tiling.cpp:246-293 | one innermost iteration keeps every entry of C equal to its dot product up to the progress of the next iteration |
| Tiling.TileCell | compiler/lib/Dialect/HLFHELinalg/Transforms/Tiling.cpp:246-293 | an entry inside the updated tile gains exactly the inner tile's contribution |
| Tiling.SummedStart | compiler/lib/Dialect/HLFHELinalg/Transforms/Tiling.cpp:185-188 | the zero matrix is the accumulator before the first iteration |
| Tiling.SummedNextInnerTile | compiler/lib/Dialect/HLFHELinalg/Transforms/Tiling.cpp:237-239 | after the last column tile, the row tile has been summed up to the next inner tile |
| Tiling.SummedNextRowTile | compiler/lib/Dialect/HLFHELinalg/Transforms/Tiling.cpp:237-239 | after the last inner tile, the row tile is complete |
| Tiling.SummedDone | compiler/lib/Dialect/HLFHELinalg/Transforms/Tiling.cpp:105-122 | after the last row tile, the accumulator is the untiled product |
| Tiling.TiledMatMul | compiler/lib/Dialect/HLFHELinalg/Transforms/Tiling.cpp:105-122 | running a nest of three loops from their lower bound 0 to their upper bounds (N, M, K) by their steps (T, U, V), C starting at zeros and C tile += A tile · B tile at every (i, j, k), gives exactly the untiled product whenever each step divides its bound |
| Tiling.RunRewrittenMatMul | compiler/lib/Dialect/HLFHELinalg/Transforms/Tiling.cpp:220-305 | the three `scf.for` loops the pattern emits for a tiled op (lower bound 0, upper bounds and steps at 220-239), run on matrices of the op's static shapes, compute the untiled product |
| Tiling.MarkForTiling | compiler/lib/Dialect/HLFHELinalg/Transforms/Tiling.cpp:337-346 | every matmul gets the same tile-sizes array; operands, result and every other attribute are unchanged |
| Tiling.MarkedTileSizesRead | compiler/lib/Dialect/HLFHELinalg/Transforms/Tiling.cpp:135-171 | a marked, unmarkered matmul is read as asking for exactly the given sizes when there are three, and fails on the count otherwise |
| Tiling.StripMarkers | compiler/lib/Dialect/HLFHELinalg/Transforms/Tiling.cpp:323-325 | no matmul carries the marker afterwards; everything else is unchanged |
| Tiling.StrippedInnerMatMul | compiler/lib/Dialect/HLFHELinalg/Transforms/Tiling.cpp:266-269 | a per-tile matmul carries no attribute once the marker is stripped |
| DTypes.ValueIsEncryptedScalarInteger | concrete/common/data_types/dtypes_helpers.py:25-34 | a scalar integer is encrypted exactly when it is not clear |
| DTypes.ValueIsTensorInteger | concrete/common/data_types/dtypes_helpers.py:119-130 | a tensor integer has an Integer data type and is never a scalar integer |
| DTypes.ValueIsEncryptedTensorInteger | concrete/common/data_types/dtypes_helpers.py:79-88 | a tensor integer is encrypted exactly when it is not clear |
| DTypes.ValuePredicatesPartition | concrete/common/data_types/dtypes_helpers.py:25-130 | stands for all eight predicates, whose own definitions follow the Python functions: an integer value is encrypted or clear and not both; never scalar and tensor; the unsigned predicates imply the encrypted ones |
| DTypes.FindTypeToHoldBothLossy | concrete/common/data_types/dtypes_helpers.py:133-189 | fails with an assertion error exactly when an input is not a base data type |
| DTypes.IntegerJoin | concrete/common/data_types/dtypes_helpers.py:157-180 | two integers join to an integer that is signed iff either is, of the maximum width when signedness agrees, and otherwise of the unsigned width + 1 when it is at least the signed width, else the signed width |
| DTypes.JoinSymmetric | concrete/common/data_types/dtypes_helpers.py:133-189 | the join does not depend on argument order |
| DTypes.JoinIdempotent | concrete/common/data_types/dtypes_helpers.py:133-189 | a base data type joined with itself is itself |
| DTypes.FloatJoin | concrete/common/data_types/dtypes_helpers.py:181-187 | two floats give the wider float; exactly one float gives that float |
| DTypes.IntegerJoinHoldsBoth | concrete/common/data_types/dtypes_helpers.py:157-180 | every integer that either integer input represents is represented by the join |
| DTypes.JoinHoldsLeft | concrete/common/data_types/dtypes_helpers.py:157-180 | the join of an integer with another integer represents every value of the first input |
| DTypes.MixScalarValues | concrete/common/data_types/dtypes_helpers.py:192-222 | succeeds exactly for two scalars with a join; the result is a scalar of the joined type, encrypted iff either input is; otherwise an assertion error |
| DTypes.MixTensorValues | concrete/common/data_types/dtypes_helpers.py:225-260 | succeeds exactly for two tensors of equal shape with a join; the result keeps the shape, has the joined type and is encrypted iff either input is |
| DTypes.MixValues | concrete/common/data_types/dtypes_helpers.py:263-293 | different classes are an assertion error, values that are neither scalar nor tensor a ValueError, otherwise the scalar or tensor mix |
| DTypes.MixIntegerValues | concrete/common/data_types/dtypes_helpers.py:192-293 | mixing two integer scalars (tensors of one shape) gives one of the same class, encrypted iff either input is, clear iff both are, unsigned-encrypted when both are |
| DTypes.BaseDataTypeForConstant | concrete/common/data_types/dtypes_helpers.py:296-317 | an int gets an Integer signed iff negative, of the width the bit-count function gives; a float gets Float(64); anything else fails |
| Sdfg.DetermineStreamMappingKind | compiler/lib/Conversion/ExtractSDFGOps/ExtractSDFGOps.cpp:37-81 | a convertible producer yields ON_DEVICE, TO_HOST or SPLICE, any other value TO_DEVICE or NONE |
| Sdfg.CountConvertible | compiler/lib/Conversion/ExtractSDFGOps/ExtractSDFGOps.cpp:54-75 | the number of convertible users is at most the number of users |
| Sdfg.MappingKindByCount | compiler/lib/Conversion/ExtractSDFGOps/ExtractSDFGOps.cpp:51-80 | ON_DEVICE iff all users are convertible (also with none), TO_HOST iff there are users and none is convertible, SPLICE iff mixed; otherwise TO_DEVICE iff some user is convertible, else NONE |
| Sdfg.Redirect | compiler/lib/Conversion/ExtractSDFGOps/ExtractSDFGOps.cpp:196-198 | a replaced value becomes the get on its stream, anything else is kept, and no replaced value survives |
| Sdfg.PlacementAfter | compiler/lib/Conversion/ExtractSDFGOps/ExtractSDFGOps.cpp:83-90 | a get or put goes right after start exactly for a block argument, otherwise after the defining op |
| Sdfg.AddEntries | compiler/lib/Conversion/ExtractSDFGOps/ExtractSDFGOps.cpp:126-173 | adding valid entries for a value in neither mapping keeps the mappings consistent with the streams and kinds |
| Sdfg.MapFreshValue | compiler/lib/Conversion/ExtractSDFGOps/ExtractSDFGOps.cpp:131-172 | the streams made for a fresh value of each kind keep the streams numbered in creation order and the mappings consistent |
| Sdfg.TransfersExtend | compiler/lib/Conversion/ExtractSDFGOps/ExtractSDFGOps.cpp:126-173 | entries added for a value that had none, with its own gets and puts appended, keep every transfer matched to its value and every replaced or TO_DEVICE value with its transfer |
| Sdfg.StreamsExtend | compiler/lib/Conversion/ExtractSDFGOps/ExtractSDFGOps.cpp:126-173 | streams appended for a value that had none, and mapped by its new entries, keep every stream in use as some value's output or input stream |
| Sdfg.MapFreshTransfers | compiler/lib/Conversion/ExtractSDFGOps/ExtractSDFGOps.cpp:131-172 | the streams, gets and puts made for a fresh value of each kind keep the transfers exactly the gets of replaced values and the puts of TO_DEVICE values, each placed after its value, and every stream in use |
| Sdfg.WiredExtends | compiler/lib/Conversion/ExtractSDFGOps/ExtractSDFGOps.cpp:175-194 | processes wired to the streams stay wired when the mappings only gain entries |
| Sdfg.StreamExtraction.constructor | compiler/lib/Conversion/ExtractSDFGOps/ExtractSDFGOps.cpp:100-106 | the mappings start empty, the counter at 0, with no streams, processes or prelude |
| Sdfg.StreamExtraction.MakeStream | compiler/lib/Conversion/ExtractSDFGOps/ExtractSDFGOps.cpp:27-35 | the new stream is numbered with the counter, which then increments; it is appended to the streams and nothing else changes |
| Sdfg.StreamExtraction.MapValueToStreams | compiler/lib/Conversion/ExtractSDFGOps/ExtractSDFGOps.cpp:126-173 | a value already in either mapping changes nothing; otherwise SPLICE makes 2 streams, TO_HOST and TO_DEVICE 1, ON_DEVICE 1 shared by both mappings, NONE none; SPLICE and TO_HOST values are replaced by a get, TO_DEVICE values get a put; the invariant (mappings, transfers, streams in use) is kept |
| Sdfg.StreamExtraction.MapOutput | compiler/lib/Conversion/ExtractSDFGOps/ExtractSDFGOps.cpp:136-154 | SPLICE and TO_HOST make a device-to-host stream and a get; ON_DEVICE makes an on-device stream; the others make nothing |
| Sdfg.StreamExtraction.MapInput | compiler/lib/Conversion/ExtractSDFGOps/ExtractSDFGOps.cpp:156-172 | ON_DEVICE reuses the output stream; SPLICE and TO_DEVICE make a host-to-device stream, with a put for TO_DEVICE |
| Sdfg.StreamExtraction.Run | compiler/lib/Conversion/ExtractSDFGOps/ExtractSDFGOps.cpp:96-201 | no convertible op means no change; otherwise the prelude is inserted, process i reads op i's operands' input streams and writes its results' output streams, only touched values are mapped, every use is redirected, the transfers are exactly a get after each replaced value on its output stream and a put after each TO_DEVICE value on its input stream, and every stream made is some value's output or input stream |
| Sdfg.StreamExtraction.ConvertOp | compiler/lib/Conversion/ExtractSDFGOps/ExtractSDFGOps.cpp:175-194 | one loop iteration adds the process for the op, wired in operand and result order, and maps only that op's values |
| Sdfg.StreamExtraction.MapResults | compiler/lib/Conversion/ExtractSDFGOps/ExtractSDFGOps.cpp:180-183 | the collected numbers are the output streams of the results, in order |
| Sdfg.StreamExtraction.MapOperands | compiler/lib/Conversion/ExtractSDFGOps/ExtractSDFGOps.cpp:185-188 | the collected numbers are the input streams of the operands, in order |
| Sdfg.StreamExtraction.ReplaceUses | compiler/lib/Conversion/ExtractSDFGOps/ExtractSDFGOps.cpp:196-198 | every use is redirected through the replacement mapping; nothing else changes |
| Sdfg.StreamExtraction.SharedStreamIsOnDevice | compiler/lib/Conversion/ExtractSDFGOps/ExtractSDFGOps.cpp:149-157 | an output and an input mapping share a stream exactly for one ON_DEVICE value |

## Left out

- The MLIR driver is not modelled: `applyPartialConversion`, the greedy rewrite driver and the
  `simplifyRegions` call. Legality is a predicate over types and ops, with no worklist.
- The generic type-reinstantiating patterns are not shown in the source. `CrtTypes.Reinstantiate`
  states only what they are for: the op is re-created with converted types.
- The meaning of the TFHE ops (`add_glwe_int`, `neg_glwe`, `mul_glwe_int`, the PBS) and of the CRT
  and lookup-table encoders is left uninterpreted. They are symbolic terms, so the rules say which
  op is applied to which residue and nothing about what it computes.
- CrtTypes.Legal: the legality of `func.constant` is delegated to
  `FunctionConstantOpConversion::isLegal` (FHEToTFHECrt.cpp:870-874), which is not part of this
  model. It is modelled as the legality of the inputs and results of the referenced function type.
- Tiling.RewriteMatMul: uses the corrected guard `Tiling.Match`, not the guard as written. The two
  agree on positive tile sizes (`Tiling.MatchAgreesOnPositiveSizes`).
- The in-place update of the matmul (`startRootUpdate` at Tiling.cpp:174 and its finalization) is
  not modelled as IR state. `Tiling.RewriteMatMul` only records, as `strayZero`, that a failure in
  the shape or partial-tile checks leaves the zero-initialised C behind and the update open.
- CrtArith.LowerApplyLookupTable: structural only (types, attributes, operands); the expanded table
  and the PBS are opaque.
- CrtArith.WritePlaintextCrtEncoding: requires the plaintext width below 64, since `arith.extsi` to
  i64 needs a narrower source; the i64 value is the sign-extended integer itself.
- IR positions are abstracted:
  - insertion points become a `Placement` (after the defining op, or after `start`);
  - stream names `"stream" + n` are represented by `n`;
  - SSA values are natural numbers.
- The `convert()` method of each convertible op is opaque. A process is recorded with its input
  and output stream numbers. The `assert(process)` on its result is not modelled.
- The `ON_DEVICE` disjunct of the second condition in `mapValueToStreams` (line 160) is unreachable
  behind the first test, so the model has no branch for it.
- The tile matmul and `add_eint` are modelled over unbounded integers, so the encrypted width
  and its overflow are not part of the tiling model.
- `tensor.extract`, `tensor.insert`, the slice ops and `from_elements` are given a semantics as
  functions from coordinates to elements. Out-of-bounds accesses are not modelled as errors.
- CrtTensor.LowerFromElements: requires a non-empty shape when the result element is already a
  ciphertext. Line 687 converts the already converted result type, so such a result does not gain
  the nMods dimension and the offsets would be unravelled over a shape without it.
- Tensors of signed encrypted integers are converted by the type converter, but the extract,
  insert and from_elements patterns leave them alone. Those patterns test for the unsigned
  encrypted type and ciphertexts only (FHEToTFHECrt.cpp:564-575). The model keeps this as
  written, and nothing is proved about those ops on signed tensors.
- `get_bits_to_represent_value_as_integer` (dtypes_helpers.py) is a function parameter, because
  its definition is not part of this model.
- A Python `bool` constant is an `int` constant, as `isinstance` treats it.
- The `partial(ScalarValue, ...)` wrapper (`get_base_value_for_python_constant_data`) and
  `get_type_constructor_for_python_constant_data` are not part of this model.
- The runtime context (thread-keyed engine map, lazy key derivation), the noise formulas and the
  Python bindings are not part of this model.
- Code differs from the prose description in two places:
  - sub_int_eint subtracts the ciphertext from the encoded cleartext without negating it
    (FHEToTFHECrt.cpp:263-264);
  - the Tiling comment says the tile product is `UxV` (Tiling.cpp:118-119), but the code builds
    a `TxV` result (line 262).

  The model follows the code in both.

## Findings

| source | as written | input that shows it | evidently intended | confidence | as-written member | corrected member |
|---|---|---|---|---|---|---|
| compiler/lib/Conversion/FHEToTFHECrt/FHEToTFHECrt.cpp:697-708 | the from_elements offset generator starts from `index * 5`, unravelled over the converted shape that ends in nMods | a 4-element result with nMods = 3 (converted shape [4, 3]): element 1 gets offsets [1, 2], so its size-3 CRT slice covers positions 2..4 of a dimension of size 3 | multiply by nMods, so element i lands at its row-major coordinate with CRT offset 0 | high (not executed) | CrtTensor.FromElementsAsWrittenOverruns | CrtTensor.FromElementsCorrectedPlacement |
| compiler/lib/Dialect/HLFHELinalg/Transforms/Tiling.cpp:161-208 | tile sizes are never checked to be positive before `%` and before use as loop steps | tile-sizes [0, 1, 1] on 4×4 matrices evaluates `4 % 0`; tile-sizes [-2, 1, 1] passes every guard and yields a loop with step -2 | reject non-positive tile sizes with an error | high (not executed) | Tiling.MatchAsWrittenNonPositiveTiles | Tiling.Match, Tiling.RewriteMatMul |
