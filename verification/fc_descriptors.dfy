/** Memory descriptors of the fully-connected executor and the pure shape
    arithmetic done on them: the transposed-weights descriptor, the dummy
    output shape used to pre-pack weights, and the implementation type read
    back from a primitive descriptor. */
module FcDescriptors {
  import opened ElementTypes

  /** Memory layout of a descriptor: `format_tag::any`, `format_tag::ba`,
      another dense tag, or the sparse format kind. */
  datatype Format = Any | Ba | OtherTag(tag: nat) | Sparsed

  /** A `dnnl::memory::desc`, compared by value. */
  datatype MemDesc = MemDesc(dims: seq<nat>, dataType: ElementType, format: Format)

  /** Number of elements described by a dims vector. */
  function Prod(dims: seq<nat>): nat
  {
    if |dims| == 0 then 1 else dims[0] * Prod(dims[1..])
  }

  lemma {:induction false} ProdAppend(a: seq<nat>, b: seq<nat>)
    ensures Prod(a + b) == Prod(a) * Prod(b)
  {
    if |a| == 0 {
      assert a + b == b;
    } else {
      assert (a + b)[1..] == a[1..] + b;
      ProdAppend(a[1..], b);
    }
  }

  /** `reshapeDownToRank<2>`: a vector of rank at most two is kept; a longer
      one has all leading dimensions folded into the first. */
  function ReshapeDownToRank2(dims: seq<nat>): (r: seq<nat>)
    ensures |r| == if |dims| <= 2 then |dims| else 2
    ensures |dims| <= 2 ==> r == dims
    ensures |dims| > 2 ==> r[0] == Prod(dims[..|dims| - 1])
    ensures Prod(r) == Prod(dims)
    ensures |dims| > 0 ==> r[|r| - 1] == dims[|dims| - 1]
  {
    if |dims| <= 2 then dims
    else
      var lead := dims[..|dims| - 1];
      ProdAppend(lead, [dims[|dims| - 1]]);
      assert lead + [dims[|dims| - 1]] == dims;
      assert Prod([dims[|dims| - 1]]) == dims[|dims| - 1];
      [Prod(lead), dims[|dims| - 1]]
  }

  /** `makeTransposedWeightDescriptor`: unchanged unless the weights are
      stored non-transposed; then a rank-2 view of the same elements and
      data type in the `ba` layout. */
  function TransposedWeightDescriptor(src: MemDesc, weightsNonTransposed: bool): (r: MemDesc)
    ensures !weightsNonTransposed ==> r == src
    ensures weightsNonTransposed ==> r.format == Ba && r.dims == ReshapeDownToRank2(src.dims)
    ensures |r.dims| <= 2 || r == src
    ensures r.dataType == src.dataType
    ensures Prod(r.dims) == Prod(src.dims)
  {
    if !weightsNonTransposed then src
    else MemDesc(ReshapeDownToRank2(src.dims), src.dataType, Ba)
  }

  /** Implementation kinds a primitive descriptor can report. */
  datatype ImplDescType = BrgemmAvx512Amx | BrgemmSparseAvx512Amx | OtherImpl(name: string)

  /** `implTypeFromPrimDesc`: the AMX brgemm implementation running on sparse
      weights is reported as the sparse AMX implementation; any other parsed
      type is kept. */
  function ImplTypeFromPrimDesc(parsed: ImplDescType, weightsFormat: Format): (r: ImplDescType)
    ensures parsed == BrgemmAvx512Amx && weightsFormat == Sparsed ==> r == BrgemmSparseAvx512Amx
    ensures !(parsed == BrgemmAvx512Amx && weightsFormat == Sparsed) ==> r == parsed
    ensures r != BrgemmAvx512Amx || weightsFormat != Sparsed
  {
    if parsed == BrgemmAvx512Amx && weightsFormat == Sparsed then BrgemmSparseAvx512Amx else parsed
  }

  /** `makeDummyOutputDims`: a shape of `outRank` ones with the output
      channels `wShape[0]` last and the activation's batch dimensions (those
      not matched by weight channel dimensions) right before it. */
  method MakeDummyOutputDims(inShape: seq<nat>, wShape: seq<nat>, outRank: nat) returns (r: seq<nat>)
    requires |wShape| >= 1 && |inShape| >= |wShape| - 1
    requires outRank >= |inShape| - (|wShape| - 1) + 1
    ensures |r| == outRank
    ensures r[outRank - 1] == wShape[0]
    ensures var batchRank := |inShape| - (|wShape| - 1);
            var start := outRank - batchRank - 1;
            && (forall i :: start <= i < outRank - 1 ==> r[i] == inShape[i - start])
            && (forall i :: 0 <= i < start ==> r[i] == 1)
    ensures var batchRank := |inShape| - (|wShape| - 1);
            outRank == batchRank + 1 ==> r == inShape[..batchRank] + [wShape[0]]
  {
    var activationRank := |inShape|;
    var channelRank := |wShape| - 1;
    r := seq(outRank, _ => 1);
    r := r[outRank - 1 := wShape[0]];
    var batchRank := activationRank - channelRank;
    var startIdx := outRank - batchRank - 1;
    var i := 0;
    while i < batchRank
      invariant i <= batchRank
      invariant |r| == outRank
      invariant r[outRank - 1] == wShape[0]
      invariant forall j :: startIdx <= j < startIdx + i ==> r[j] == inShape[j - startIdx]
      invariant forall j :: 0 <= j < startIdx || startIdx + i <= j < outRank - 1 ==> r[j] == 1
    {
      r := r[i + startIdx := inShape[i]];
      i := i + 1;
    }
    if outRank == batchRank + 1 {
      assert r == inShape[..batchRank] + [wShape[0]];
    }
  }
}
