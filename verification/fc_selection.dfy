/** The decisions the fully-connected oneDNN executor makes from element
    types, shapes and CPU capabilities: weight decompression, dynamic
    quantization, the weight data type requested from oneDNN, and the
    precisions of the decompression scales and zero-points. */
module FcSelection {
  import opened Common
  import opened ElementTypes
  import opened FcKey

  /** The CPU features the code queries through `mayiuse`. */
  datatype CpuCaps = CpuCaps(avx2: bool, avx2Vnni: bool, avx512CoreVnni: bool)

  /** `useWeightsDecompressionImpl`. */
  function UseWeightsDecompression(cpu: CpuCaps, input: ElementType, weights: ElementType,
                                   model: ModelType): (r: bool)
    ensures !cpu.avx2 ==> !r
    ensures r <==> cpu.avx2 &&
                   (|| (input in {F32, Bf16} && weights in {U8, I8, Nf4, U4, I4, F4e2m1})
                    || (model == Llm && input == F32 && weights in {F16, Bf16}))
  {
    if cpu.avx2 then
      if (input == F32 || input == Bf16) &&
         (weights == U8 || weights == I8 || weights == Nf4 || weights == U4 || weights == I4 || weights == F4e2m1) then
        true
      else if model == Llm then
        input == F32 && (weights == F16 || weights == Bf16)
      else
        false
    else
      false
  }

  /** A scales or zero-points tensor attached to the weights. */
  datatype QuantTensor = QuantTensor(precision: ElementType, dims: seq<nat>)

  /** A grouped (rank != 1) tensor whose shape the source can read: it has a
      second dimension, and that group count is not zero (the source divides
      by it). Anything else is undefined behaviour in the source. */
  predicate GroupedShapeReadable(t: Option<QuantTensor>)
  {
    t.Some? && |t.value.dims| != 1 ==> |t.value.dims| >= 2 && t.value.dims[1] > 0
  }

  const SimdWidth: nat := 16

  /** A grouped tensor whose group size is not a multiple of the dynamic
      quantization group size blocks dynamic quantization. */
  predicate GroupingCompatible(t: Option<QuantTensor>, ic: nat, dqGroupSize: nat)
    requires GroupedShapeReadable(t)
    requires dqGroupSize > 0
  {
    t.Some? && |t.value.dims| != 1 ==> t.value.dims[1] == 1 || (ic / t.value.dims[1]) % dqGroupSize == 0
  }

  /** The checks of `useDynamicQuantizationImpl` that come before it reads
      any grouped shape. */
  predicate EarlyChecksPass(dqGroupSize: nat, cpu: CpuCaps, srcPrecision: ElementType,
                            weiPrecision: ElementType, ic: nat, zeroPoints: Option<QuantTensor>)
  {
    && dqGroupSize > 0
    && (cpu.avx2Vnni || cpu.avx512CoreVnni)
    && srcPrecision == F32
    && (weiPrecision.U8? || weiPrecision.U4? || ((weiPrecision.I8? || weiPrecision.I4?) && zeroPoints.None?))
    && (zeroPoints.Some? ==> zeroPoints.value.precision.U8? || zeroPoints.value.precision.U4?
                             || zeroPoints.value.precision.Dynamic?)
    && dqGroupSize % SimdWidth == 0
    && ic >= SimdWidth
  }

  /** The grouped-shape checks of `useDynamicQuantizationImpl`, scales first,
      then zero-points; each tensor is read before its grouping is checked. */
  function GroupedChecks(ic: nat, dqGroupSize: nat, zeroPoints: Option<QuantTensor>, scales: Option<QuantTensor>): (r: Result<bool>)
    requires dqGroupSize > 0
    ensures r.Err? <==> || !GroupedShapeReadable(scales)
                        || (GroupingCompatible(scales, ic, dqGroupSize) && !GroupedShapeReadable(zeroPoints))
    ensures r == Ok(true) <==> && GroupedShapeReadable(scales) && GroupedShapeReadable(zeroPoints)
                               && GroupingCompatible(scales, ic, dqGroupSize)
                               && GroupingCompatible(zeroPoints, ic, dqGroupSize)
  {
    if !GroupedShapeReadable(scales) then Err("scales: grouped shape without a readable group count")
    else if scales.Some? && |scales.value.dims| != 1 &&
            scales.value.dims[1] != 1 && (ic / scales.value.dims[1]) % dqGroupSize != 0 then Ok(false)
    else if !GroupedShapeReadable(zeroPoints) then Err("zero-points: grouped shape without a readable group count")
    else if zeroPoints.Some? && |zeroPoints.value.dims| != 1 &&
            zeroPoints.value.dims[1] != 1 && (ic / zeroPoints.value.dims[1]) % dqGroupSize != 0 then Ok(false)
    else Ok(true)
  }

  /** `useDynamicQuantizationImpl`: `ic` is the weights' second dimension.
      `Err` marks an input on which the source reads a grouped shape it
      cannot read; every check before that read is still made first. */
  function UseDynamicQuantization(dqGroupSize: nat, cpu: CpuCaps, srcPrecision: ElementType,
                                  weiPrecision: ElementType, ic: nat,
                                  zeroPoints: Option<QuantTensor>, scales: Option<QuantTensor>): (r: Result<bool>)
    ensures dqGroupSize == 0 ==> r == Ok(false)
    ensures !cpu.avx2Vnni && !cpu.avx512CoreVnni ==> r == Ok(false)
    ensures srcPrecision != F32 ==> r == Ok(false)
    ensures weiPrecision !in {U8, U4} && !(weiPrecision in {I8, I4} && zeroPoints.None?) ==> r == Ok(false)
    ensures zeroPoints.Some? && zeroPoints.value.precision !in {U8, U4, Dynamic} ==> r == Ok(false)
    ensures dqGroupSize % SimdWidth != 0 ==> r == Ok(false)
    ensures ic < SimdWidth ==> r == Ok(false)
    ensures r.Err? <==> && EarlyChecksPass(dqGroupSize, cpu, srcPrecision, weiPrecision, ic, zeroPoints)
                        && (|| !GroupedShapeReadable(scales)
                            || (GroupingCompatible(scales, ic, dqGroupSize) && !GroupedShapeReadable(zeroPoints)))
    ensures r == Ok(true) <==> && EarlyChecksPass(dqGroupSize, cpu, srcPrecision, weiPrecision, ic, zeroPoints)
                               && GroupedShapeReadable(scales) && GroupedShapeReadable(zeroPoints)
                               && GroupingCompatible(scales, ic, dqGroupSize)
                               && GroupingCompatible(zeroPoints, ic, dqGroupSize)
  {
    if !EarlyChecksPass(dqGroupSize, cpu, srcPrecision, weiPrecision, ic, zeroPoints) then Ok(false)
    else GroupedChecks(ic, dqGroupSize, zeroPoints, scales)
  }

  /** The two decisions of `createShapeAgnosticData`. */
  datatype Plan = Plan(useDecompression: bool, useDynamicQuantization: bool)

  /** Dynamic quantization is only asked about once decompression is chosen
      (the `&&` short-circuits), so its undefined inputs only matter then. */
  function MakePlan(cpu: CpuCaps, srcPrecision: ElementType, weiPrecision: ElementType, model: ModelType,
                    dqGroupSize: nat, ic: nat, zeroPoints: Option<QuantTensor>, scales: Option<QuantTensor>): (p: Result<Plan>)
    ensures !UseWeightsDecompression(cpu, srcPrecision, weiPrecision, model) ==> p == Ok(Plan(false, false))
    ensures p.Err? <==>
              && UseWeightsDecompression(cpu, srcPrecision, weiPrecision, model)
              && UseDynamicQuantization(dqGroupSize, cpu, srcPrecision, weiPrecision, ic, zeroPoints, scales).Err?
    ensures p.Ok? ==> p.value.useDecompression == UseWeightsDecompression(cpu, srcPrecision, weiPrecision, model)
    ensures p.Ok? && p.value.useDynamicQuantization ==> p.value.useDecompression
    ensures p.Ok? ==>
              (p.value.useDynamicQuantization <==>
                 && p.value.useDecompression
                 && UseDynamicQuantization(dqGroupSize, cpu, srcPrecision, weiPrecision, ic, zeroPoints, scales) == Ok(true))
  {
    if !UseWeightsDecompression(cpu, srcPrecision, weiPrecision, model) then Ok(Plan(false, false))
    else
      match UseDynamicQuantization(dqGroupSize, cpu, srcPrecision, weiPrecision, ic, zeroPoints, scales)
      case Err(why) => Err(why)
      case Ok(dq) => Ok(Plan(true, dq))
  }

  /** The dynamic-quantization group size the composed attributes carry:
      set only when dynamic quantization is used. */
  function AttrDynQuantGroupSize(useDynamicQuantization: bool, dqGroupSize: nat): nat
  {
    if useDynamicQuantization then dqGroupSize else 0
  }

  /** The weight data type `createDescriptorInternal` asks oneDNN for. */
  function WeightDataType(inputType: ElementType, weightType: ElementType, useDecompression: bool,
                          dynQuantGroupSize: nat): (wdt: ElementType)
    ensures useDecompression && dynQuantGroupSize > 0 && weightType == I8 ==> wdt == U8
    ensures useDecompression && dynQuantGroupSize > 0 && weightType == I4 ==> wdt == U4
    ensures useDecompression && !(dynQuantGroupSize > 0 && weightType in {I8, I4}) ==> wdt == weightType
    ensures !useDecompression && inputType in {U8, I8} ==> wdt == I8
    ensures !useDecompression && inputType !in {U8, I8} ==> wdt == inputType
  {
    if useDecompression then
      if dynQuantGroupSize > 0 && weightType == I8 then U8
      else if dynQuantGroupSize > 0 && weightType == I4 then U4
      else weightType
    else if inputType == U8 || inputType == I8 then I8
    else inputType
  }

  /** Whenever dynamic quantization is chosen, the weights oneDNN is asked
      for are unsigned, as VNNI accumulation requires. */
  lemma DynamicQuantizationGetsUnsignedWeights(
    cpu: CpuCaps, srcPrecision: ElementType, weiPrecision: ElementType, model: ModelType,
    dqGroupSize: nat, ic: nat, zeroPoints: Option<QuantTensor>, scales: Option<QuantTensor>)
    ensures var p := MakePlan(cpu, srcPrecision, weiPrecision, model, dqGroupSize, ic, zeroPoints, scales);
            p.Ok? && p.value.useDynamicQuantization ==>
              WeightDataType(srcPrecision, weiPrecision, p.value.useDecompression,
                             AttrDynQuantGroupSize(p.value.useDynamicQuantization, dqGroupSize)) in {U8, U4}
  {
  }

  /** The steps `createPrimitiveAttrs` adds for weight decompression. */
  datatype DecompressionStep =
    | Scales(precision: ElementType)
    | ZeroPoints(precision: ElementType)
    | ImplicitZeroPoint(value: nat)
    | DynamicQuantization(groupSize: nat)

  /** Precision the decompression scales are converted to. */
  function ScalesPrecision(given: ElementType, useDynamicQuantization: bool): (p: ElementType)
    ensures p in {F32, F8e8m0}
    ensures p == F8e8m0 <==> given == F8e8m0 && !useDynamicQuantization
  {
    if given != F8e8m0 || useDynamicQuantization then F32 else given
  }

  /** Precision the decompression zero-points are converted to. */
  function ZeroPointsPrecision(useDynamicQuantization: bool): (p: ElementType)
    ensures useDynamicQuantization <==> p == U8
    ensures !useDynamicQuantization <==> p == F32
  {
    if useDynamicQuantization then U8 else F32
  }

  /** The zero-point that turns symmetric i8/i4 weights into u8/u4 ones. */
  function SymmetricZeroPoint(weights: ElementType): (zp: nat)
    requires weights in {I8, I4}
    ensures zp == HalfRange(weights)
  {
    if weights == I8 then 128 else 8
  }

  /** Adding the symmetric zero-point maps the signed range onto the
      unsigned range of the same width, and subtracting it recovers the value. */
  lemma SymmetricZeroPointShift(weights: ElementType, v: int)
    requires weights in {I8, I4}
    requires var zp := SymmetricZeroPoint(weights) as int; -zp <= v < zp
    ensures 0 <= v + SymmetricZeroPoint(weights) < Pow2(SignedBits(weights))
    ensures (v + SymmetricZeroPoint(weights)) - SymmetricZeroPoint(weights) == v
  {
  }

  /** `createPrimitiveAttrs`, the decompression part: scales, then
      zero-points, then for dynamic quantization the implicit zero-point of
      symmetric weights and the group size. */
  function DecompressionSteps(scales: Option<ElementType>, zeroPoints: Option<ElementType>,
                              weiPrecision: ElementType, useDynamicQuantization: bool,
                              dqGroupSize: nat): (steps: seq<DecompressionStep>)
    ensures var explicit := (if scales.Some? then 1 else 0) + (if zeroPoints.Some? then 1 else 0);
            var dynamic := if !useDynamicQuantization then 0 else if weiPrecision in {I8, I4} then 2 else 1;
            && |steps| == explicit + dynamic
            && (forall i :: 0 <= i < explicit ==> steps[i].Scales? || steps[i].ZeroPoints?)
            && (forall i :: explicit <= i < |steps| ==> steps[i].ImplicitZeroPoint? || steps[i].DynamicQuantization?)
    ensures scales.Some? <==> |steps| > 0 && steps[0].Scales?
    ensures scales.Some? ==> steps[0] == Scales(ScalesPrecision(scales.value, useDynamicQuantization))
    ensures zeroPoints.Some? <==> exists i :: 0 <= i < |steps| && steps[i].ZeroPoints?
    ensures zeroPoints.Some? ==>
              steps[if scales.Some? then 1 else 0] == ZeroPoints(ZeroPointsPrecision(useDynamicQuantization))
    ensures forall i :: 0 <= i < |steps| && steps[i].ZeroPoints? ==>
              steps[i].precision == ZeroPointsPrecision(useDynamicQuantization)
    ensures (exists i :: 0 <= i < |steps| && steps[i].ImplicitZeroPoint?) <==>
              useDynamicQuantization && weiPrecision in {I8, I4}
    ensures forall i :: 0 <= i < |steps| && steps[i].ImplicitZeroPoint? ==>
              steps[i].value == SymmetricZeroPoint(weiPrecision)
    ensures useDynamicQuantization <==> |steps| > 0 && steps[|steps| - 1] == DynamicQuantization(dqGroupSize)
  {
    var s := if scales.Some? then [Scales(ScalesPrecision(scales.value, useDynamicQuantization))] else [];
    var z := if zeroPoints.Some? then [ZeroPoints(ZeroPointsPrecision(useDynamicQuantization))] else [];
    var dq := if !useDynamicQuantization then []
              else if weiPrecision in {I8, I4} then
                [ImplicitZeroPoint(SymmetricZeroPoint(weiPrecision)), DynamicQuantization(dqGroupSize)]
              else [DynamicQuantization(dqGroupSize)];
    var steps := s + z + dq;
    assert useDynamicQuantization && weiPrecision in {I8, I4} ==> steps[|s| + |z|].ImplicitZeroPoint?;
    assert zeroPoints.Some? ==> steps[|s|].ZeroPoints?;
    steps
  }

  /** The precision of an attached tensor, if there is one. */
  function PrecisionOf(t: Option<QuantTensor>): Option<ElementType>
  {
    if t.Some? then Some(t.value.precision) else None
  }

  /** With the plan `createShapeAgnosticData` makes, the attributes never carry
      both an explicit and an implicit zero-point: symmetric weights get the
      implicit one only when no zero-points tensor is attached. */
  lemma SingleZeroPointSource(
    cpu: CpuCaps, srcPrecision: ElementType, weiPrecision: ElementType, model: ModelType,
    dqGroupSize: nat, ic: nat, zeroPoints: Option<QuantTensor>, scales: Option<QuantTensor>)
    ensures var p := MakePlan(cpu, srcPrecision, weiPrecision, model, dqGroupSize, ic, zeroPoints, scales);
            p.Ok? ==>
              var steps := DecompressionSteps(PrecisionOf(scales), PrecisionOf(zeroPoints), weiPrecision,
                                              p.value.useDynamicQuantization, dqGroupSize);
              !((exists i :: 0 <= i < |steps| && steps[i].ZeroPoints?) &&
                (exists j :: 0 <= j < |steps| && steps[j].ImplicitZeroPoint?))
  {
    var p := MakePlan(cpu, srcPrecision, weiPrecision, model, dqGroupSize, ic, zeroPoints, scales);
    if p.Ok? && p.value.useDynamicQuantization && weiPrecision in {I8, I4} {
      assert EarlyChecksPass(dqGroupSize, cpu, srcPrecision, weiPrecision, ic, zeroPoints);
    }
  }
}
