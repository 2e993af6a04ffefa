# OpenVINO CPU plugin pieces, modelled in Dafny

This project models five pieces of the OpenVINO runtime and proves properties
about each one:

- **The snippets brgemm kernel executor** (`Brgemm`, `BrgemmReference`).
  - A kernel configuration holds static parameters and per-call dimensions. Each config carries a stored hash.
  - Compiled kernels are shared through a key-to-artifact runtime cache (`RuntimeCache`).
  - `execute` forwards the call and requests compensation only on an overwriting step.
  - A debug reference kernel computes `C = A * B` row by row.
- **The oneDNN fully-connected primitive** (`FcKey`, `FcDescriptors`, `FcSelection`).
  - The cache key has four possibly null descriptor pointers. Its hash skips null slots, and its equality compares by pointer identity, then by value.
  - `create` looks the key up in the runtime cache.
  - The model includes the pure shape helpers and the decisions for weight decompression and dynamic quantization.
  - It also includes the weight data type and the decompression steps of the primitive attributes.
- **The adaptive pooling CPU node** (`PoolingBins`, `AdaptivePooling`, `AdaptivePoolMax`).
  - The node validates its ports and offers memory layouts.
  - `needShapeInfer` caches the pooled shape as `size_t`.
  - The model covers the extents and channel-block schedule of `execute`, the bin borders, and the `poolMax` kernel with its index output.
- **The `ConvertMinimum` transformation** (`ConvertMinimum`). It rewrites `Minimum(a, b)` as `-Maximum(-a, -b)`. For signed integer types, guards protect the minimum value.
  - Dataflows are evaluated with two's-complement wrap-around.
- **The path helpers** exercised by the `file_util` tests (`PathUtil`): `path_join` (POSIX branch), `sanitize_path` and `trim_file_name`.

Shared definitions:

- `Common` holds the `Option`/`Result`/`Outcome` wrappers and three product lemmas.
- `Hashing` holds the 64-bit `hash_combine`.
- `ElementTypes` holds the element-type enumeration and its classification queries.

Modelling choices:

- **Floats.** Float tensors are modelled as `int` values. The only float computation the model needs is the bin end `ceil(x / y)`, and it is exact integer ceiling division.
- **Hashes.** Hashes are 64-bit words with explicit wrap-around.
- **Shape casts.** `static_cast<int32_t>` and the `size_t` store in `needShapeInfer` are written out modulo 2^32 and 2^64.
- **Outside code.** Code generators, oneDNN primitive construction and CPU feature queries are parameters of the model.

## Model

| member | source | states |
|---|---|---|
| Hashing.CombineFromZeroInjective | src/plugins/intel_cpu/src/emitters/snippets/x64/kernel_executors/brgemm.cpp:60-62 | two different values combined into seed 0 give two different hashes, so the compensation flag always separates the seed |
| Hashing.FoldAppend | src/plugins/intel_cpu/src/nodes/executors/dnnl/dnnl_fullyconnected_primitive.cpp:55-67 | folding `hash_combine` over two field lists in turn is folding it over their concatenation, so a chain of combines can be regrouped |
| ElementTypes.SignedBits | src/common/transformations/src/transformations/op_conversions/convert_minimum_to_power_and_max.cpp:51-64 | i4, i8, i16, i32 and i64 are 4, 8, 16, 32 and 64 bits wide |
| ElementTypes.HalfRange | src/common/transformations/src/transformations/op_conversions/convert_minimum_to_power_and_max.cpp:51-64 | half the value range of i4, i8, i16, i32 and i64 is 2^3, 2^7, 2^15, 2^31 and 2^63, the magnitude of the minimum value the guards test for |
| ElementTypes.SignedIntegralTypes | src/common/transformations/src/transformations/op_conversions/convert_minimum_to_power_and_max.cpp:51-52 | a type is both signed and an integral number exactly when it is one of the signed integer types i4, i8, i16, i32, i64 (both directions) |
| RuntimeCache.Find | src/plugins/intel_cpu/src/nodes/executors/dnnl/dnnl_fullyconnected_primitive.cpp:101-118 | a hit is the first entry whose key equals the probe; a miss means no entry's key equals it |
| RuntimeCache.GetOrCreate | src/plugins/intel_cpu/src/nodes/executors/dnnl/dnnl_fullyconnected_primitive.cpp:101-118 | the builder runs exactly when no equal key is cached; a hit leaves the cache unchanged and returns a stored artifact of an equal key; a miss appends the new key and artifact |
| RuntimeCache.GetOrCreateKeepsUnique | src/plugins/intel_cpu/src/nodes/executors/dnnl/dnnl_fullyconnected_primitive.cpp:101-118 | for an equivalence relation, a lookup keeps the cache free of two entries with equal keys |
| RuntimeCache.SecondLookupHits | src/plugins/intel_cpu/src/nodes/executors/dnnl/dnnl_fullyconnected_primitive.cpp:101-118 | after a lookup of `k`, a lookup of any key equal to `k` hits, returns the same artifact and leaves the cache unchanged |
| Brgemm.MakeStaticParams | src/plugins/intel_cpu/src/emitters/snippets/x64/kernel_executors/brgemm.cpp:47-54 | the static parameters keep the given types, ISA, post-ops and compensation flag, and carry the hash their fields determine |
| Brgemm.CompHash | src/plugins/intel_cpu/src/emitters/snippets/x64/kernel_executors/brgemm.cpp:60-62 | the seed for one flag value never equals the seed for the other, so the compensation flag always changes the hash seed |
| Brgemm.StaticEq | src/plugins/intel_cpu/src/emitters/snippets/x64/kernel_executors/brgemm.cpp:56-58 | equality is reflexive, and on parameters whose stored hash matches their fields it is exactly structural equality |
| Brgemm.ConfigHash | src/plugins/intel_cpu/src/emitters/snippets/x64/kernel_executors/brgemm.cpp:35-45 | the config hash is the static hash folded with M, N, K, LDA, LDB, LDC and beta (as its floor), one `hash_combine` per field in that order |
| Brgemm.DimFieldsFold | src/plugins/intel_cpu/src/emitters/snippets/x64/kernel_executors/brgemm.cpp:35-45 | the fold over the dynamic fields is the chain of seven combines, M first and beta last |
| Brgemm.IsEmpty | src/plugins/intel_cpu/src/emitters/snippets/x64/kernel_executors/brgemm.cpp:76-82 | a config is empty exactly when M*N*K is 0, so an empty config performs no multiply-add |
| Brgemm.ProductZero | src/plugins/intel_cpu/src/emitters/snippets/x64/kernel_executors/brgemm.cpp:76-82 | a product of three sizes is 0 exactly when one of them is 0 |
| Brgemm.MakeConfig | src/plugins/intel_cpu/src/emitters/snippets/x64/kernel_executors/brgemm.cpp:35-45 | a new config takes the source/weight types, the ISA and the compensation flag from the brgemm config, stores a hash consistent with its fields, and starts empty (not executable) |
| Brgemm.Update | src/plugins/intel_cpu/src/emitters/snippets/x64/kernel_executors/brgemm.cpp:101-105 | updating replaces only the dynamic dimensions, keeps the static part, and keeps the stored hash consistent |
| Brgemm.StaticEqCharacterization | src/plugins/intel_cpu/src/emitters/snippets/x64/kernel_executors/brgemm.cpp:56-58 | static parameters are equal exactly when every base field and the compensation flag agree; a flag difference alone breaks equality |
| Brgemm.StaticHashRespectsEq | src/plugins/intel_cpu/src/emitters/snippets/x64/kernel_executors/brgemm.cpp:56-62 | equal static parameters carry equal hashes |
| Brgemm.ConfigHashRespectsEq | src/plugins/intel_cpu/src/emitters/snippets/x64/kernel_executors/brgemm.cpp:56-62 | equal configs carry equal stored hashes, so the hash is usable as a cache bucket |
| Brgemm.UpdateIdempotent | src/plugins/intel_cpu/src/emitters/snippets/x64/kernel_executors/brgemm.cpp:101-105 | updating twice with the same dimensions equals updating once, and the kernel lookup for the second update hits the cache: no compilation, the same kernel, the cache unchanged |
| Brgemm.CompensationFlagSeparatesConfigs | src/plugins/intel_cpu/src/emitters/snippets/x64/kernel_executors/brgemm.cpp:56-58 | configs that differ in the compensation flag are never equal |
| Brgemm.ConfigEqIsEquivalence | src/plugins/intel_cpu/src/emitters/snippets/x64/kernel_executors/brgemm.cpp:56-58 | config equality is reflexive, symmetric and transitive, as the runtime cache requires |
| Brgemm.CompileKernel | src/plugins/intel_cpu/src/emitters/snippets/x64/kernel_executors/brgemm.cpp:76-99 | the generator is called exactly when the config is not empty, and then with the config's types, ISA, sizes, leading dimensions, beta and post-ops; an empty config yields a null kernel |
| Brgemm.CompileRespectsEq | src/plugins/intel_cpu/src/emitters/snippets/x64/kernel_executors/brgemm.cpp:76-99 | equal configs compile to the same kernel with the same generator request |
| Brgemm.UpdateKernel | src/plugins/intel_cpu/src/emitters/snippets/x64/kernel_executors/brgemm.cpp:76-99 | with a live cache, compilation happens exactly when no equal config is cached, and a compiled kernel is added to the cache; with no cache, the kernel is compiled and nothing is kept |
| Brgemm.UpdateKernelCompilesOnce | src/plugins/intel_cpu/src/emitters/snippets/x64/kernel_executors/brgemm.cpp:76-99 | after one update, an update with any equal config does not compile again, gets the same kernel and leaves the cache unchanged |
| Brgemm.Execute | src/plugins/intel_cpu/src/emitters/snippets/x64/kernel_executors/brgemm.cpp:107-127 | the call fails exactly when the executor or its kernel is null; otherwise it forwards the kernel and pointers unchanged, requests compensation exactly when beta is 0 and the config needs compensation, and always applies post-ops |
| Brgemm.CompensationOnlyWhenOverwriting | src/plugins/intel_cpu/src/emitters/snippets/x64/kernel_executors/brgemm.cpp:114-118 | an accumulating call (beta != 0), or a call whose config needs no compensation, never requests compensation |
| BrgemmReference.MakeRefKernel | src/plugins/intel_cpu/src/emitters/snippets/x64/kernel_executors/brgemm.cpp:140-145 | the reference kernel is built exactly for configs without compensation whose input and output types are all f32, and it keeps the config |
| BrgemmReference.CompileReference | src/plugins/intel_cpu/src/emitters/snippets/x64/kernel_executors/brgemm.cpp:134-138 | reference compilation succeeds exactly when the reference kernel accepts the config, and it never calls the code generator |
| BrgemmReference.RowsOrdered | src/plugins/intel_cpu/src/emitters/snippets/x64/kernel_executors/brgemm.cpp:147-162 | with non-overlapping rows, every C slot of an earlier row comes before every slot of a later row |
| BrgemmReference.OffsetInjective | src/plugins/intel_cpu/src/emitters/snippets/x64/kernel_executors/brgemm.cpp:147-162 | with non-overlapping rows, distinct (row, column) pairs write distinct C slots |
| BrgemmReference.AccumulateSlot | src/plugins/intel_cpu/src/emitters/snippets/x64/kernel_executors/brgemm.cpp:153-158 | the inner loop leaves the dot product of row m of A and column n of B in the slot and changes no other slot |
| BrgemmReference.RunRow | src/plugins/intel_cpu/src/emitters/snippets/x64/kernel_executors/brgemm.cpp:151-161 | after one row, every column's slot of that row holds its dot product, B has advanced by N, and slots outside the row are unchanged |
| BrgemmReference.RowCompleted | src/plugins/intel_cpu/src/emitters/snippets/x64/kernel_executors/brgemm.cpp:150-161 | writing row m does not disturb the results of rows 0..m-1 or any slot outside rows 0..m |
| BrgemmReference.Run | src/plugins/intel_cpu/src/emitters/snippets/x64/kernel_executors/brgemm.cpp:147-162 | for every m < M and n < N, C[m*LDC + n] is the sum over k of A[m*LDA + k] * B[k*LDB + n], and every other slot of C is unchanged |
| BrgemmReference.DotIdentity | src/plugins/intel_cpu/src/emitters/snippets/x64/kernel_executors/brgemm.cpp:153-158 | with an identity A, the running dot product of row m is 0 until k passes m and B's element (m, n) after |
| BrgemmReference.IdentityTimesMatrix | src/plugins/intel_cpu/src/emitters/snippets/x64/kernel_executors/brgemm.cpp:147-162 | for every A that is the identity on its M x M block, running the reference kernel leaves B's element (m, n) in C slot (m, n) for every m < M, n < N, and every other C slot as it was |
| FcDescriptors.ProdAppend | src/plugins/intel_cpu/src/nodes/executors/dnnl/dnnl_fullyconnected_primitive.cpp:121-135 | the element count of concatenated dims is the product of the two counts |
| FcDescriptors.ReshapeDownToRank2 | src/plugins/intel_cpu/src/nodes/executors/dnnl/dnnl_fullyconnected_primitive.cpp:121-135 | the result has rank min(rank, 2); dims of rank at most 2 are returned unchanged; otherwise the first dim is the product of all but the last and the last dim is kept; the element count never changes |
| FcDescriptors.TransposedWeightDescriptor | src/plugins/intel_cpu/src/nodes/executors/dnnl/dnnl_fullyconnected_primitive.cpp:121-135 | transposed weights are returned unchanged; non-transposed weights get the `ba` format and the rank-2 reshaped dims; either way the data type and element count are kept and the rank is at most 2 unless the descriptor is unchanged |
| FcDescriptors.ImplTypeFromPrimDesc | src/plugins/intel_cpu/src/nodes/executors/dnnl/dnnl_fullyconnected_primitive.cpp:463-471 | AMX brgemm on sparse weights is reported as the sparse AMX brgemm, every other pair keeps the parsed type, and AMX brgemm is never reported for sparse weights |
| FcDescriptors.MakeDummyOutputDims | src/plugins/intel_cpu/src/nodes/executors/dnnl/dnnl_fullyconnected_primitive.cpp:378-396 | the dummy output has the requested rank, the weights' output channels last, the activation's batch dims just before them and ones in front; at minimal rank it is exactly the batch dims plus the channels |
| FcKey.SlotEqCharacterization | src/plugins/intel_cpu/src/nodes/executors/dnnl/dnnl_fullyconnected_primitive.cpp:70-90 | over coherent pointers, a descriptor slot matches exactly when both are null or both hold equal descriptors |
| FcKey.KeyHashRespectsEq | src/plugins/intel_cpu/src/nodes/executors/dnnl/dnnl_fullyconnected_primitive.cpp:51-90 | equal keys hash equally, whatever hash functions the descriptors and attributes use |
| FcKey.KeyEqIsEquivalence | src/plugins/intel_cpu/src/nodes/executors/dnnl/dnnl_fullyconnected_primitive.cpp:70-90 | key equality is reflexive, symmetric and transitive over coherent pointers |
| FcKey.NullSkippingCollides | src/plugins/intel_cpu/src/nodes/executors/dnnl/dnnl_fullyconnected_primitive.cpp:51-68 | a descriptor in the src slot and the same descriptor in the weights slot hash alike, yet the keys are not equal |
| FcKey.SlotEq | src/plugins/intel_cpu/src/nodes/executors/dnnl/dnnl_fullyconnected_primitive.cpp:73-84 | a slot matches when both pointers are the same or both hold equal descriptors, and a null slot never matches a non-null one |
| FcKey.KeyEq | src/plugins/intel_cpu/src/nodes/executors/dnnl/dnnl_fullyconnected_primitive.cpp:70-90 | every key equals itself, and equal keys have their null descriptors in the same slots |
| FcKey.KeyHash | src/plugins/intel_cpu/src/nodes/executors/dnnl/dnnl_fullyconnected_primitive.cpp:51-68 | the hash is `hash_combine` folded from seed 0 over the hashes of the non-null descriptors in the order src, weights, bias, dst, then the attribute hash, the sparse-weights flag and the model type |
| FcKey.AddSlotFold | src/plugins/intel_cpu/src/nodes/executors/dnnl/dnnl_fullyconnected_primitive.cpp:57-61 | one slot adds its descriptor hash when non-null and nothing when null |
| FcKey.KeyFieldsFold | src/plugins/intel_cpu/src/nodes/executors/dnnl/dnnl_fullyconnected_primitive.cpp:55-67 | the fold over the key fields is the source's chain of combines |
| FcKey.Create | src/plugins/intel_cpu/src/nodes/executors/dnnl/dnnl_fullyconnected_primitive.cpp:92-119 | the key holds exactly the given descriptors and attributes; the primitive is built exactly when no equal key is cached, a hit returns a cached primitive of an equal key and leaves the cache unchanged, and a miss adds the new primitive |
| FcSelection.UseWeightsDecompression | src/plugins/intel_cpu/src/nodes/executors/dnnl/dnnl_fullyconnected_primitive.cpp:137-155 | decompression is used exactly for the supported (CPU, input type, weight type, model type) combinations, and never without AVX2 |
| FcSelection.UseDynamicQuantization | src/plugins/intel_cpu/src/nodes/executors/dnnl/dnnl_fullyconnected_primitive.cpp:157-218 | no group size, no VNNI, a non-f32 source, unsupported weights or zero-points, a group not a multiple of 16 and fewer than 16 input channels each give `false`; past those checks, an unreadable grouped scales or zero-points shape is an error (read in the source's order); otherwise the answer is `true` exactly when both groupings are compatible |
| FcSelection.GroupedChecks | src/plugins/intel_cpu/src/nodes/executors/dnnl/dnnl_fullyconnected_primitive.cpp:199-217 | scales are checked before zero-points; the result is an error exactly when the tensor being read has an unreadable grouped shape, and `true` exactly when both are readable and compatible with the group size |
| FcSelection.MakePlan | src/plugins/intel_cpu/src/nodes/executors/dnnl/dnnl_fullyconnected_primitive.cpp:408-412 | without decompression the plan is (false, false) and no quantization input is read; with it, an error from the dynamic quantization decision is passed on, and otherwise dynamic quantization is planned exactly when it is chosen |
| FcSelection.WeightDataType | src/plugins/intel_cpu/src/nodes/executors/dnnl/dnnl_fullyconnected_primitive.cpp:302-321 | with decompression and dynamic quantization, i8/i4 weights are requested as u8/u4, other weights keep their type; without decompression, u8/i8 inputs request i8 weights and others request the input type |
| FcSelection.DynamicQuantizationGetsUnsignedWeights | src/plugins/intel_cpu/src/nodes/executors/dnnl/dnnl_fullyconnected_primitive.cpp:176-182 | whenever a plan chooses dynamic quantization, the weight type requested from oneDNN is u8 or u4 |
| FcSelection.ScalesPrecision | src/plugins/intel_cpu/src/nodes/executors/dnnl/dnnl_fullyconnected_primitive.cpp:247-254 | scales are converted to f32, except that f8e8m0 scales stay f8e8m0 when dynamic quantization is off |
| FcSelection.ZeroPointsPrecision | src/plugins/intel_cpu/src/nodes/executors/dnnl/dnnl_fullyconnected_primitive.cpp:256-259 | zero-points are converted to u8 under dynamic quantization and to f32 otherwise |
| FcSelection.SymmetricZeroPoint | src/plugins/intel_cpu/src/nodes/executors/dnnl/dnnl_fullyconnected_primitive.cpp:267 | the implicit zero-point of i8/i4 weights is the half range of the type (128 or 8) |
| FcSelection.SymmetricZeroPointShift | src/plugins/intel_cpu/src/nodes/executors/dnnl/dnnl_fullyconnected_primitive.cpp:261-275 | adding the implicit zero-point maps every signed weight value into the unsigned range, and subtracting it gives the value back |
| FcSelection.DecompressionSteps | src/plugins/intel_cpu/src/nodes/executors/dnnl/dnnl_fullyconnected_primitive.cpp:247-275 | the steps are the explicit ones (scales, then zero-points, each exactly when given, at the converted precisions) followed by the dynamic-quantization ones; an implicit zero-point equal to the symmetric one appears exactly under dynamic quantization for i8/i4 weights; dynamic quantization with its group size is the last step exactly when enabled; the step count is the sum of those parts |
| FcSelection.SingleZeroPointSource | src/plugins/intel_cpu/src/nodes/executors/dnnl/dnnl_fullyconnected_primitive.cpp:256-275 | for every plan, the steps never carry both an explicit and an implicit zero-point |
| PoolingBins.BinBorders | src/plugins/intel_cpu/src/nodes/adaptive_pooling.cpp:295-302 | the bin start is floor(idx*in/out) and the end is ceil((idx+1)*in/out), both stated as product inequalities |
| PoolingBins.FloorDivBounds | src/plugins/intel_cpu/src/nodes/adaptive_pooling.cpp:300 | the floor quotient times the divisor is at most x and within one divisor of it |
| PoolingBins.CeilDivBounds | src/plugins/intel_cpu/src/nodes/adaptive_pooling.cpp:301 | the ceiling quotient times the divisor is at least x, and rounds up by less than one divisor |
| PoolingBins.BinInsideInput | src/plugins/intel_cpu/src/nodes/adaptive_pooling.cpp:295-302 | on a non-empty axis every bin is a non-empty range inside the input |
| PoolingBins.BinsSpanAxis | src/plugins/intel_cpu/src/nodes/adaptive_pooling.cpp:295-302 | the first bin starts at 0 and the last bin ends at the input length |
| PoolingBins.BinsLeaveNoGap | src/plugins/intel_cpu/src/nodes/adaptive_pooling.cpp:295-302 | each bin ends at or after the start of the next one |
| PoolingBins.OwningBin | src/plugins/intel_cpu/src/nodes/adaptive_pooling.cpp:295-302 | every input position has an output position whose scaled range contains it |
| PoolingBins.BinsCoverInput | src/plugins/intel_cpu/src/nodes/adaptive_pooling.cpp:295-302 | every input position lies in the bin of its owning output position, so no input is skipped |
| AdaptivePooling.CheckDescriptors | src/plugins/intel_cpu/src/nodes/adaptive_pooling.cpp:80-94 | validation passes exactly for well-formed nodes; each error is reported exactly when its check is the first to fail, in the order input edges, output edges, data rank, pooled-shape rank, kept data rank |
| AdaptivePooling.DataFormats | src/plugins/intel_cpu/src/nodes/adaptive_pooling.cpp:117-123 | planar comes first, no layout is repeated, and exactly the offered layouts appear (the other three only when the channel count is known and not 1) |
| AdaptivePooling.InitSupportedPrimitiveDescriptors | src/plugins/intel_cpu/src/nodes/adaptive_pooling.cpp:109-135 | existing descriptors are kept unchanged; otherwise the list is non-empty and starts with the planar descriptor |
| AdaptivePooling.InitDescriptorPorts | src/plugins/intel_cpu/src/nodes/adaptive_pooling.cpp:124-134 | every fresh descriptor takes f32 data and a planar i32 pooled shape, produces f32 data in the data layout, and the max algorithm adds a planar i32 index output |
| AdaptivePooling.InitDescriptorLayouts | src/plugins/intel_cpu/src/nodes/adaptive_pooling.cpp:117-134 | the fresh descriptors have pairwise distinct data layouts, which are exactly the offered ones |
| AdaptivePooling.InitIsIdempotent | src/plugins/intel_cpu/src/nodes/adaptive_pooling.cpp:110-112 | a second initialisation changes nothing |
| AdaptivePooling.ToInt32 | src/plugins/intel_cpu/src/nodes/adaptive_pooling.cpp:99 | the 32-bit cast yields a 32-bit value congruent to its input modulo 2^32 |
| AdaptivePooling.ToSizeT | src/plugins/intel_cpu/src/nodes/adaptive_pooling.cpp:101 | storing into `size_t` yields a value below 2^64 congruent to its input modulo 2^64 |
| AdaptivePooling.Int32SurvivesSizeT | src/plugins/intel_cpu/src/nodes/adaptive_pooling.cpp:99-101 | a 32-bit value stored as `size_t` and cast back is unchanged |
| AdaptivePooling.NeedShapeInfer | src/plugins/intel_cpu/src/nodes/adaptive_pooling.cpp:96-107 | when some cached value differs from the incoming one, shape inference is needed and the cache takes the incoming values; otherwise the answer is the base node's and the cache is unchanged |
| AdaptivePooling.UpdatedCacheMatches | src/plugins/intel_cpu/src/nodes/adaptive_pooling.cpp:96-107 | after an update, the cache agrees with the incoming values, so an immediate second call with them finds no difference |
| AdaptivePooling.Ones | src/plugins/intel_cpu/src/nodes/adaptive_pooling.cpp:176-181 | the padding has the requested length and is all ones |
| AdaptivePooling.ExecutionExtents | src/plugins/intel_cpu/src/nodes/adaptive_pooling.cpp:144-182 | extraction fails exactly on non-f32 data or a pooled shape of the wrong size; on success, batch and channels are the first two dims, and the input and pooled extents are the given ones padded in front with ones up to three axes |
| AdaptivePooling.BlockCount | src/plugins/intel_cpu/src/nodes/adaptive_pooling.cpp:190 | channel-last data has one block; otherwise the blocks cover C with less than one block to spare |
| AdaptivePooling.BlockRange | src/plugins/intel_cpu/src/nodes/adaptive_pooling.cpp:271-278 | channel-last data covers all channels; a block below the count starts at blk*blockSize and covers a non-empty range inside [0, C) of at most blockSize channels |
| AdaptivePooling.BlockInside | src/plugins/intel_cpu/src/nodes/adaptive_pooling.cpp:271-278 | a block below the count starts before C, and a block before the last one ends before C |
| AdaptivePooling.BlockMember | src/plugins/intel_cpu/src/nodes/adaptive_pooling.cpp:276-284 | a channel in block `blk` has block index `blk` and in-block offset `c mod blockSize` |
| AdaptivePooling.NextBlock | src/plugins/intel_cpu/src/nodes/adaptive_pooling.cpp:271-278 | the channel ranges of consecutive blocks tile [0, C): the first starts at 0, each ends where the next starts, the last ends at C |
| AdaptivePooling.VisitBlock | src/plugins/intel_cpu/src/nodes/adaptive_pooling.cpp:279-287 | one block visits its channels in order, extending the schedule to the block's end with the right block index and residual offset for each channel |
| AdaptivePooling.ChannelSchedule | src/plugins/intel_cpu/src/nodes/adaptive_pooling.cpp:267-288 | over all blocks every channel 0..C-1 is pooled exactly once, in order, from a valid block, at the residual offset its layout prescribes |
| AdaptivePoolMax.PoolMax | src/plugins/intel_cpu/src/nodes/adaptive_pooling.cpp:211-235 | the result is the largest value of the bin window, held by a window position that no earlier position in scan order matches, and the reported index is that position's flat index |
| AdaptivePoolMax.IndexSlot | src/plugins/intel_cpu/src/nodes/adaptive_pooling.cpp:234 | an in-range output position of plane s lands in the plane's own block of OD*OH*OW index slots |
| AdaptivePoolMax.PlaneBounds | src/plugins/intel_cpu/src/nodes/adaptive_pooling.cpp:234 | the offset of an in-range position is below the start of the next plane |
| AdaptivePoolMax.IndexSlotHorner | src/plugins/intel_cpu/src/nodes/adaptive_pooling.cpp:234 | the index slot is the Horner form of (plane, od, oh, ow) in the radices OD, OH, OW |
| AdaptivePoolMax.IndexSlotsDistinct | src/plugins/intel_cpu/src/nodes/adaptive_pooling.cpp:234 | distinct (plane, od, oh, ow) tuples write distinct index slots, so the parallel loop writes each index once |
| ConvertMinimum.Wrap | src/common/transformations/src/transformations/op_conversions/convert_minimum_to_power_and_max.cpp:37-49 | wrapping yields a value of the type and leaves representable values unchanged |
| ConvertMinimum.WrapTo | src/common/transformations/src/transformations/op_conversions/convert_minimum_to_power_and_max.cpp:37-49 | wrapping into [-h, h) lands in range and fixes values already in it |
| ConvertMinimum.WrapPeriods | src/common/transformations/src/transformations/op_conversions/convert_minimum_to_power_and_max.cpp:37-49 | the wrapped value differs from the exact one by a whole number of periods |
| ConvertMinimum.Eval | src/common/transformations/src/transformations/op_conversions/convert_minimum_to_power_and_max.cpp:37-64 | a dataflow whose constants are values of the type, evaluated on values of the type, yields a value of the type |
| ConvertMinimum.NegatedMax | src/common/transformations/src/transformations/op_conversions/convert_minimum_to_power_and_max.cpp:37-49 | the negated-maximum dataflow has constants in range for a type exactly when both inputs do |
| ConvertMinimum.GuardedNegatedMax | src/common/transformations/src/transformations/op_conversions/convert_minimum_to_power_and_max.cpp:51-64 | the guarded dataflow has constants in range for a signed integer type exactly when both inputs do, since the minimum-value constant is one |
| ConvertMinimum.RewriteConstantsInRange | src/common/transformations/src/transformations/op_conversions/convert_minimum_to_power_and_max.cpp:37-64 | the constants the rewrite adds, -1 and the minimum value of a signed integer type, are values of the type |
| ConvertMinimum.Callback | src/common/transformations/src/transformations/op_conversions/convert_minimum_to_power_and_max.cpp:26-67 | the rewrite applies exactly to a non-vetoed Minimum of a signed type; consumers then read the guarded negated maximum for signed integers and the plain one otherwise; without the rewrite nothing changes |
| ConvertMinimum.SecondReplaceIsNoOp | src/common/transformations/src/transformations/op_conversions/convert_minimum_to_power_and_max.cpp:60-66 | for signed integers the second `replace_node` finds no consumer of the Minimum left |
| ConvertMinimum.EvalNegate | src/common/transformations/src/transformations/op_conversions/convert_minimum_to_power_and_max.cpp:37-45 | multiplying by the constant -1 negates and then wraps |
| ConvertMinimum.EvalNegatedMax | src/common/transformations/src/transformations/op_conversions/convert_minimum_to_power_and_max.cpp:37-49 | the negated maximum evaluates to the wrapped negation of the larger wrapped negation |
| ConvertMinimum.EvalGuard | src/common/transformations/src/transformations/op_conversions/convert_minimum_to_power_and_max.cpp:51-64 | one guard yields the constant when its input equals it and the guarded value otherwise |
| ConvertMinimum.EvalGuarded | src/common/transformations/src/transformations/op_conversions/convert_minimum_to_power_and_max.cpp:51-64 | the guarded dataflow yields the minimum value when either input equals it, and the negated maximum otherwise |
| ConvertMinimum.NegatedMaxIsMinimum | src/common/transformations/src/transformations/op_conversions/convert_minimum_to_power_and_max.cpp:37-49 | when neither negation wraps, the negated maximum of the negated inputs equals the minimum |
| ConvertMinimum.NegatedMaxIsSmaller | src/common/transformations/src/transformations/op_conversions/convert_minimum_to_power_and_max.cpp:37-49 | for any two dataflows whose values and negations are values of the type, the negated maximum evaluates to the smaller value |
| ConvertMinimum.NegatedLargerOfNegated | src/common/transformations/src/transformations/op_conversions/convert_minimum_to_power_and_max.cpp:37-49 | -max(-a, -b) equals min(a, b) when no negation wraps |
| ConvertMinimum.NegatingMinWraps | src/common/transformations/src/transformations/op_conversions/convert_minimum_to_power_and_max.cpp:51-64 | negating the minimum value of a signed integer type wraps back to itself |
| ConvertMinimum.UnguardedRewriteFailsAtMin | src/common/transformations/src/transformations/op_conversions/convert_minimum_to_power_and_max.cpp:51-64 | without the guards, the rewrite of min(MIN, 0) gives 0 instead of MIN, which is why the guards exist |
| ConvertMinimum.GuardedIsMinimum | src/common/transformations/src/transformations/op_conversions/convert_minimum_to_power_and_max.cpp:51-64 | the guarded dataflow equals the minimum on every pair of values of a signed integer type |
| ConvertMinimum.CallbackPreservesValue | src/common/transformations/src/transformations/op_conversions/convert_minimum_to_power_and_max.cpp:26-67 | after the rewrite, or when it is vetoed, the consumer computes the Minimum's value on every pair of representable inputs of a signed integer type |
| PathUtil.JoinTwoShape | src/core/tests/file_util.cpp:19-85 | the second component survives whole at the end; a relative second component keeps the first whole at the front; between two non-empty components with a relative second there is exactly one separator |
| PathUtil.Join2 | src/core/tests/file_util.cpp:19-85 | an empty second component keeps the first, an absolute second or an empty first gives the second, and otherwise the length is the first without its trailing separator, one separator and the second |
| PathUtil.PathJoin | src/core/tests/file_util.cpp:19-85 | an absolute last component is the whole result, and components that are all empty join to the empty path |
| PathUtil.SlashedEndsWithLast | src/core/tests/file_util.cpp:125-155 | plain components joined by separators never end with a separator |
| PathUtil.PathJoinOfSegments | src/core/tests/file_util.cpp:125-155 | joining plain components puts exactly one separator between neighbours |
| PathUtil.JoinPair | src/core/tests/file_util.cpp:19-85 | joining two components is one two-way join |
| PathUtil.PathJoinExamples | src/core/tests/file_util.cpp:19-85 | the ten POSIX `path_join` assertions hold |
| PathUtil.JoinSegmentSnoc | src/core/tests/file_util.cpp:125-155 | appending a plain component to joined plain components adds exactly one separator and the component |
| PathUtil.JoinedFour | src/core/tests/file_util.cpp:125-155 | four plain components join to the slash-separated string |
| PathUtil.JoinedFive | src/core/tests/file_util.cpp:125-155 | five plain components join to the slash-separated string |
| PathUtil.JoinedSix | src/core/tests/file_util.cpp:125-139 | six plain components join to the slash-separated string |
| PathUtil.FindCharIsFirst | src/core/tests/file_util.cpp:108-111 | a search for a character finds its first occurrence and reports none only when it does not occur |
| PathUtil.FindCharAbsent | src/core/tests/file_util.cpp:88-107 | a character that does not occur is not found |
| PathUtil.FirstKept | src/core/tests/file_util.cpp:87-112 | the first kept position lies between the start and the end of the string |
| PathUtil.FirstKeptIsFirst | src/core/tests/file_util.cpp:87-112 | every character before the first kept position is a separator or dot, and the one there is not |
| PathUtil.FirstKeptAt | src/core/tests/file_util.cpp:87-112 | a run of stripped characters followed by a kept one (or the end) ends exactly at the first kept position |
| PathUtil.FirstKeptRun | src/core/tests/file_util.cpp:87-112 | every character from the scan start up to the first kept position is a separator or dot |
| PathUtil.SanitizeStartShape | src/core/tests/file_util.cpp:87-112 | the sanitized start is in range and at a kept character; it lies past the first ':', and only separators and dots lie between that ':' (or the beginning, without one) and the start |
| PathUtil.SanitizeStartWithoutColon | src/core/tests/file_util.cpp:100-103 | without a ':' and with a kept first character, sanitizing starts at the beginning |
| PathUtil.SanitizePath | src/core/tests/file_util.cpp:87-112 | the result is a suffix of the input that is empty or starts with a kept character; everything through the first ':' is dropped, and after it (or from the beginning, without a ':') only separators and dots are; a path without ':' that starts with a kept character is unchanged |
| PathUtil.SanitizedSuffix | src/core/tests/file_util.cpp:87-112 | the suffix from the sanitized start satisfies each of the clauses of `SanitizePath` |
| PathUtil.SanitizeContractDetermines | src/core/tests/file_util.cpp:87-112 | any suffix that meets the suffix, kept-first-character and dropped-through-the-first-':' clauses is the sanitized path, so those clauses fix the result |
| PathUtil.SanitizeDottedExamples | src/core/tests/file_util.cpp:88-99 | "../../tensor.data" sanitizes to "tensor.data" and ".." to "" |
| PathUtil.SanitizeAbsoluteExample | src/core/tests/file_util.cpp:92-95 | "/../tensor.data" sanitizes to "tensor.data" |
| PathUtil.SanitizePlainExample | src/core/tests/file_util.cpp:100-103 | "workspace/data/tensor.data" is left unchanged |
| PathUtil.SanitizeBackslashExample | src/core/tests/file_util.cpp:104-107 | "..\\..\\tensor.data" sanitizes to "tensor.data" |
| PathUtil.SanitizeDriveExample | src/core/tests/file_util.cpp:108-111 | "C:\\workspace\\tensor.data" sanitizes to "workspace\\tensor.data" |
| PathUtil.IndexOf | src/core/tests/file_util.cpp:125-171 | a substring search finds the first occurrence at or after the start, and reports none only when there is none |
| PathUtil.TrimFileNameShape | src/core/tests/file_util.cpp:125-171 | when "projectDir/" occurs, the result is what follows its first occurrence; otherwise the name is unchanged |
| PathUtil.TrimFileName | src/core/tests/file_util.cpp:125-171 | the result is a suffix of the name, and it is the whole name exactly when "projectDir/" does not occur in it |
| PathUtil.TrimAfterProjectDir | src/core/tests/file_util.cpp:125-171 | trimming "prefix/projectDir/rest" gives "rest" when the project directory does not occur earlier |
| PathUtil.TrimRelativeExample | src/core/tests/file_util.cpp:125-132 | trimming the joined relative path through the project directory gives the joined "src/test_src.cpp" |
| PathUtil.TrimAbsoluteExample | src/core/tests/file_util.cpp:141-148 | trimming the joined absolute path through the project directory gives the joined "src/test_src.cpp" |
| PathUtil.TrimWithoutProjectDirExamples | src/core/tests/file_util.cpp:134-155 | paths that do not pass through the project directory are returned unchanged |
| PathUtil.TrimWrittenPath | src/core/tests/file_util.cpp:157-171 | a hand-written "prefix/" + projectDir + "/rest" trims to "rest" |
| PathUtil.TrimForwardSlashExamples | src/core/tests/file_util.cpp:157-171 | both hand-written forward-slash paths trim to "src/test_src.cpp" |

## Left out

- The implementation file of `path_join`, `sanitize_path` and `trim_file_name` is not part of this model. `PathUtil` defines the POSIX behaviour that the `file_util` tests pin down, and proves each of those assertions.
- The Windows branch of `path_join` (backslash separator) and the `path_cast` tests are not modelled. Only the POSIX branch is.
- `trim_file_name` reads the project directory from a build-time macro. The trim lemmas take it as a parameter, and their requires say it is a plain component that does not occur earlier in the path. The tests rely on the same fact about the build tree.
- The base classes of the brgemm config are not part of this model. This covers the shared base parameters, `CPUKernelExecutor` and the IR-driven `update_config`. Their fields are a datatype, and their hash is a fixed fold of those fields.
- The JIT code generator (`create_brgemm_kernel`) and `execute_brgemm_kernel` are not modelled. The generator is an opaque parameter, and execution is modelled as the invocation it receives.
- RuntimeCache.GetOrCreate: the cache is an unbounded append-only list. Capacity, eviction by the cache's own policy, recency reordering on a hit and concurrent access are not modelled. "A hit leaves the cache unchanged" and the compile-once lemmas (`SecondLookupHits`, `Brgemm.UpdateKernelCompilesOnce`, `Brgemm.UpdateIdempotent`) hold only while the entry is still cached.
- Brgemm.ConfigHash: beta is a `real` in the model, and it enters the hash as its floor (`Hashing.OfInt(beta.Floor)`). The source hashes the float value itself, so two betas with the same floor (0.25 and 0.5) hash alike here but not there. Equality of configs still compares beta exactly.
- Brgemm.UpdateKernel: an expired cache is modelled as `None`, so compilation happens and nothing is stored. Weak-pointer expiry itself is not modelled.
- BrgemmReference.Run: the source passes `A`, `B` and `C` as raw pointers (brgemm.cpp:148-150) that could alias one another. The model keeps them as three separate sequences, so writes to `C` never change `A` or `B`.
- BrgemmReference.Run: requires that output rows do not overlap (a single row, or LDC >= N). The source does not check this; with overlapping rows, later writes would clobber earlier results.
- Float data is modelled as integers. f32 rounding, NaN and the float `ceil` in the bin borders are not modelled; the ceiling is exact integer division.
- Average pooling (`poolAvg`) is not modelled: its result is a float mean. Its bins are the same `PoolingBins` that max pooling uses.
- `parallel_for5d` is modelled as a sequential schedule. `IndexSlotsDistinct` shows that the iterations write disjoint index slots.
- AdaptivePoolMax.PoolMax: the `int` index and the `int` casts of the extents are not wrapped at 32 bits, because the model's extents are unbounded naturals.
- AdaptivePooling.NeedShapeInfer: `spatialDimsValue` is taken as a vector of `size_t`, so the store wraps modulo 2^64. The pointer cast is not modelled.
- FcSelection.UseDynamicQuantization: a grouped scales or zero-points tensor of rank 0, or with a group count of 0, is read out of bounds or divided by zero in the source (dnnl_fullyconnected_primitive.cpp:199-215). That is undefined behaviour, so the model answers `Err` there instead of a value, and only once every earlier check has passed. `MakePlan` passes the error on when decompression is chosen.
- The oneDNN calls of the fully-connected executor are not modelled:
  - `createPrimitiveDesc` and the implementation search
  - `normalizeDescriptor`
  - `makeDummyInputDims`
  - weight memory preparation
  - the post-ops composer
  The decisions and shapes these calls receive are modelled.
- `mayiuse` CPU feature queries are a `CpuCaps` parameter.
- The executor's constructor and `isSupportedOperation` are not modelled.
- The hashes of memory descriptors and primitive attributes are parameters of `FcKey`. Their properties hold for every choice.
- ConvertMinimum.CallbackPreservesValue: excludes `boolean`. OpenVINO marks `boolean` as signed, so the rewrite applies to it, but `Multiply` by -1 has no integer meaning there.
- ConvertMinimum: both inputs and the output share one element type. The pattern matcher's type checks are not modelled.
- For real (floating) types the rewrite is stated without rounding: `Wrap` leaves values outside the signed integer types unchanged.
