/** The CPU adaptive pooling node: structural validation of its ports, the
    layouts it offers, the cached pooled-shape check that decides whether
    shapes must be re-inferred, the extents read at execution time and the
    channel blocking of the parallel loop nest. */
module AdaptivePooling {
  import opened Common
  import opened ElementTypes
  import PoolingBins

  datatype Algorithm = AdaptivePoolingAvg | AdaptivePoolingMax

  /** Why `getSupportedDescriptors` rejects a node. */
  datatype DescriptorError =
    | IncorrectInputEdges(count: nat)
    | IncorrectOutputEdges(count: nat)
    | UnsupportedDataRank(rank: nat)
    | UnsupportedPooledShapeRank(rank: nat)
    | DataRankNotKept

  /** The number of spatial axes, as the constructor derives it from the data
      rank (negative for ranks below two). */
  function SpatialDimsCount(dataRank: nat): int
  {
    dataRank - 2
  }

  /** Output edges an algorithm needs: max also produces the indices. */
  function RequiredOutputEdges(alg: Algorithm): nat
  {
    if alg == AdaptivePoolingMax then 2 else 1
  }

  /** The node passes validation. */
  predicate WellFormedNode(alg: Algorithm, parentEdges: nat, childEdges: nat,
                           dataRank: nat, pooledShapeRank: nat, outputRank: nat)
  {
    && parentEdges == 2
    && childEdges >= RequiredOutputEdges(alg)
    && 1 <= SpatialDimsCount(dataRank) <= 3
    && pooledShapeRank == 1
    && outputRank == dataRank
  }

  /** `getSupportedDescriptors`: the checks in order; the first failing one
      is reported. */
  function CheckDescriptors(alg: Algorithm, parentEdges: nat, childEdges: nat,
                            dataRank: nat, pooledShapeRank: nat, outputRank: nat): (r: Outcome<DescriptorError>)
    ensures r.Pass? <==> WellFormedNode(alg, parentEdges, childEdges, dataRank, pooledShapeRank, outputRank)
    ensures r.Pass? ==> 3 <= dataRank <= 5
    ensures r == Fail(IncorrectInputEdges(parentEdges)) <==> parentEdges != 2
    ensures r == Fail(IncorrectOutputEdges(childEdges)) <==>
              parentEdges == 2 && childEdges < RequiredOutputEdges(alg)
    ensures r == Fail(UnsupportedDataRank(dataRank)) <==>
              && parentEdges == 2 && childEdges >= RequiredOutputEdges(alg)
              && !(3 <= dataRank <= 5)
    ensures r == Fail(UnsupportedPooledShapeRank(pooledShapeRank)) <==>
              && parentEdges == 2 && childEdges >= RequiredOutputEdges(alg)
              && 3 <= dataRank <= 5 && pooledShapeRank != 1
    ensures r == Fail(DataRankNotKept) <==>
              && parentEdges == 2 && childEdges >= RequiredOutputEdges(alg)
              && 3 <= dataRank <= 5 && pooledShapeRank == 1 && outputRank != dataRank
  {
    var spatial := SpatialDimsCount(dataRank);
    if parentEdges != 2 then Fail(IncorrectInputEdges(parentEdges))
    else if childEdges < RequiredOutputEdges(alg) then Fail(IncorrectOutputEdges(childEdges))
    else if !(spatial == 1 || spatial == 2 || spatial == 3) then Fail(UnsupportedDataRank(dataRank))
    else if pooledShapeRank != 1 then Fail(UnsupportedPooledShapeRank(pooledShapeRank))
    else if outputRank != dataRank then Fail(DataRankNotKept)
    else Pass
  }

  /** Memory layouts of the node's ports. */
  datatype LayoutType = Ncsp | Nspc | NCsp16c | NCsp8c

  /** A dimension that may be unknown until execution. */
  datatype Dim = Undefined | Defined(value: nat)

  datatype PortConfig = PortConfig(layout: LayoutType, precision: ElementType)

  /** A supported primitive descriptor: its input and output port configs
      (the implementation type is always `unknown`). */
  datatype PrimDesc = PrimDesc(inputs: seq<PortConfig>, outputs: seq<PortConfig>)

  /** The layouts offered for a given channel dimension: planar always, the
      channel-last and blocked ones only for a known channel count other
      than one. */
  function OfferedLayouts(channels: Dim): set<LayoutType>
  {
    if channels.Defined? && channels.value != 1 then {Ncsp, Nspc, NCsp16c, NCsp8c} else {Ncsp}
  }

  /** The descriptor for one data layout: f32 data in that layout plus the
      i32 pooled shape in planar layout; max adds the i32 index output. */
  function DescriptorFor(alg: Algorithm, layout: LayoutType): PrimDesc
  {
    var inputs := [PortConfig(layout, F32), PortConfig(Ncsp, I32)];
    if alg == AdaptivePoolingAvg then PrimDesc(inputs, [PortConfig(layout, F32)])
    else PrimDesc(inputs, [PortConfig(layout, F32), PortConfig(Ncsp, I32)])
  }

  /** The data layouts in the order they are offered. */
  function DataFormats(channels: Dim): (fs: seq<LayoutType>)
    ensures |fs| > 0 && fs[0] == Ncsp
    ensures forall i, j :: 0 <= i < j < |fs| ==> fs[i] != fs[j]
    ensures forall l :: l in fs <==> l in OfferedLayouts(channels)
  {
    if channels.Defined? && channels.value != 1 then [Ncsp, Nspc, NCsp16c, NCsp8c] else [Ncsp]
  }

  /** `initSupportedPrimitiveDescriptors`: a no-op once descriptors exist;
      otherwise one descriptor per offered layout, planar first. */
  function InitSupportedPrimitiveDescriptors(existing: seq<PrimDesc>, alg: Algorithm, channels: Dim): (r: seq<PrimDesc>)
    ensures |existing| > 0 ==> r == existing
    ensures |existing| == 0 ==> |r| > 0 && r[0] == DescriptorFor(alg, Ncsp)
  {
    if |existing| > 0 then existing
    else
      var formats := DataFormats(channels);
      seq(|formats|, i requires 0 <= i < |formats| => DescriptorFor(alg, formats[i]))
  }

  /** Every fresh descriptor takes f32 data and the planar i32 pooled shape,
      outputs data in the input's layout, and adds the planar i32 index
      output exactly for max pooling. */
  lemma InitDescriptorPorts(alg: Algorithm, channels: Dim)
    ensures var r := InitSupportedPrimitiveDescriptors([], alg, channels);
            forall i :: 0 <= i < |r| ==>
              && |r[i].inputs| == 2 && 1 <= |r[i].outputs| <= 2
              && r[i].inputs[0] == PortConfig(r[i].inputs[0].layout, F32)
              && r[i].inputs[1] == PortConfig(Ncsp, I32)
              && r[i].outputs[0] == r[i].inputs[0]
              && (|r[i].outputs| == 2 <==> alg == AdaptivePoolingMax)
              && (alg == AdaptivePoolingMax ==> r[i].outputs[1] == PortConfig(Ncsp, I32))
  {
  }

  /** The fresh descriptors have pairwise distinct data layouts, and those
      layouts are exactly the offered ones. */
  lemma InitDescriptorLayouts(alg: Algorithm, channels: Dim)
    ensures var r := InitSupportedPrimitiveDescriptors([], alg, channels);
            && (forall i, j :: 0 <= i < j < |r| ==> r[i].inputs[0].layout != r[j].inputs[0].layout)
            && (forall l :: l in OfferedLayouts(channels) <==>
                  exists i :: 0 <= i < |r| && r[i].inputs[0].layout == l)
  {
    var formats := DataFormats(channels);
    var r := InitSupportedPrimitiveDescriptors([], alg, channels);
    assert forall i :: 0 <= i < |r| ==> r[i].inputs[0].layout == formats[i];
    forall l | l in formats
      ensures exists i :: 0 <= i < |r| && r[i].inputs[0].layout == l
    {
      var i :| 0 <= i < |formats| && formats[i] == l;
      assert r[i].inputs[0].layout == l;
    }
  }

  /** Calling it again changes nothing. */
  lemma InitIsIdempotent(existing: seq<PrimDesc>, alg: Algorithm, channels: Dim)
    ensures var once := InitSupportedPrimitiveDescriptors(existing, alg, channels);
            InitSupportedPrimitiveDescriptors(once, alg, channels) == once
  {
  }

  const Int32Modulus: int := 0x1_0000_0000
  const SizeTModulus: int := 0x1_0000_0000_0000_0000

  predicate IsInt32(v: int)
  {
    -0x8000_0000 <= v < 0x8000_0000
  }

  /** `static_cast<int32_t>`: keep the low 32 bits, read as two's complement. */
  function ToInt32(v: int): (r: int)
    ensures IsInt32(r)
    ensures (r - v) % Int32Modulus == 0
  {
    var low := v % Int32Modulus;
    if low < 0x8000_0000 then low else low - Int32Modulus
  }

  /** Storing an `int32_t` into a `size_t`: sign extension, then reduction
      modulo 2^64. */
  function ToSizeT(v: int): (r: nat)
    ensures r < SizeTModulus
    ensures (r - v) % SizeTModulus == 0
  {
    v % SizeTModulus
  }

  /** A 32-bit value survives the round trip through the cached `size_t`. */
  lemma Int32SurvivesSizeT(v: int)
    requires IsInt32(v)
    ensures ToInt32(ToSizeT(v)) == v
  {
  }

  /** `needShapeInfer`: `cached` is the node's `spatialDimsValue` (one entry
      per spatial axis) and `incoming` the pooled-shape input. */
  method NeedShapeInfer(cached: seq<nat>, incoming: seq<int>, baseNeedsShapeInfer: bool)
    returns (needed: bool, updated: seq<nat>)
    requires |incoming| >= |cached|
    requires forall i :: 0 <= i < |incoming| ==> IsInt32(incoming[i])
    ensures (exists i :: 0 <= i < |cached| && ToInt32(cached[i]) != incoming[i]) ==>
              needed && updated == seq(|cached|, j requires 0 <= j < |cached| => ToSizeT(incoming[j]))
    ensures (forall i :: 0 <= i < |cached| ==> ToInt32(cached[i]) == incoming[i]) ==>
              needed == baseNeedsShapeInfer && updated == cached
    ensures |updated| == |cached|
  {
    var i := 0;
    while i < |cached|
      invariant i <= |cached|
      invariant forall j :: 0 <= j < i ==> ToInt32(cached[j]) == incoming[j]
    {
      if ToInt32(cached[i]) != incoming[i] {
        updated := cached;
        var j := 0;
        while j < |updated|
          invariant j <= |updated| == |cached|
          invariant forall k :: 0 <= k < j ==> updated[k] == ToSizeT(incoming[k])
        {
          updated := updated[j := ToSizeT(incoming[j])];
          j := j + 1;
        }
        return true, updated;
      }
      i := i + 1;
    }
    return baseNeedsShapeInfer, cached;
  }

  /** After an update the cache agrees with the values it was updated from,
      so asking again with the same pooled shape defers to the base class. */
  lemma UpdatedCacheMatches(cached: seq<nat>, incoming: seq<int>)
    requires |incoming| >= |cached|
    requires forall i :: 0 <= i < |incoming| ==> IsInt32(incoming[i])
    ensures var updated := seq(|cached|, j requires 0 <= j < |cached| => ToSizeT(incoming[j]));
            forall i :: 0 <= i < |updated| ==> ToInt32(updated[i]) == incoming[i]
  {
    forall i | 0 <= i < |cached|
      ensures ToInt32(ToSizeT(incoming[i])) == incoming[i]
    {
      Int32SurvivesSizeT(incoming[i]);
    }
  }

  /** Batch, channels and the three-dimensional input and pooled extents
      used by the loop nest. */
  datatype Extents = Extents(N: nat, C: nat, ID: nat, IH: nat, IW: nat, OD: int, OH: int, OW: int)

  /** `count` leading ones. */
  function Ones(count: nat): (r: seq<int>)
    ensures |r| == count && forall i :: 0 <= i < count ==> r[i] == 1
  {
    seq(count, _ => 1)
  }

  /** The dimension extraction of `execute`: the precision check, the check
      that the pooled shape has one entry per spatial axis, and the spatial
      extents (missing leading axes read as 1). */
  function ExecutionExtents(inputPrec: ElementType, outputPrec: ElementType, inDims: seq<nat>,
                            spatialDimsCount: int, pooled: seq<int>): (r: Result<Extents>)
    requires 1 <= spatialDimsCount <= 3 && |inDims| == spatialDimsCount + 2
    ensures r.Ok? <==> inputPrec == F32 && outputPrec == F32 && |pooled| == spatialDimsCount
    ensures r.Ok? ==> r.value.N == inDims[0] && r.value.C == inDims[1]
    ensures r.Ok? ==> [r.value.ID as int, r.value.IH as int, r.value.IW as int] ==
                      Ones(3 - spatialDimsCount) + inDims[2..]
    ensures r.Ok? ==> [r.value.OD, r.value.OH, r.value.OW] == Ones(3 - spatialDimsCount) + pooled
  {
    if !(inputPrec == F32 && outputPrec == F32) then Err("doesn't support demanded precisions")
    else if |pooled| != spatialDimsCount then
      Err("has input spatial dimension inconsistent with pooling vector size")
    else
      var s := spatialDimsCount;
      var e := Extents(inDims[0], inDims[1],
                       if s == 3 then inDims[2] else 1,
                       if s >= 2 then inDims[s] else 1,
                       inDims[s + 1],
                       if s == 3 then pooled[0] else 1,
                       if s >= 2 then pooled[s - 2] else 1,
                       pooled[s - 1]);
      Ok(e)
  }

  /** How the channel axis is stored at execution time. */
  datatype ChannelFormat = Plain | TailC | BlockedC(blockSize: nat)

  function BlockSize(f: ChannelFormat): nat
  {
    if f.BlockedC? then f.blockSize else 1
  }

  /** `blockCount`: one block for channel-last data, otherwise the padded
      channel extent divided by the block size, that is one per channel for
      planar data and the number of padded blocks for blocked data. */
  function BlockCount(f: ChannelFormat, C: nat): (r: nat)
    requires f.BlockedC? ==> f.blockSize > 0
    ensures f.TailC? ==> r == 1
    ensures !f.TailC? ==> C <= r * BlockSize(f) && (r == 0 || (r - 1) * BlockSize(f) < C)
  {
    match f
    case TailC => 1
    case Plain => C
    case BlockedC(bs) => PoolingBins.CeilDivBounds(C, bs); PoolingBins.CeilDiv(C, bs)
  }

  /** The channels block `blk` covers: all of them for channel-last data,
      otherwise [blk*blockSize, blk == last ? C : blk*blockSize + blockSize). */
  function BlockRange(f: ChannelFormat, C: nat, blk: nat): (r: (nat, nat))
    requires f.BlockedC? ==> f.blockSize > 0
    ensures f.TailC? ==> r == (0, C)
    ensures !f.TailC? && blk < BlockCount(f, C) ==>
              r.0 == blk * BlockSize(f) && r.0 < r.1 <= C && r.1 - r.0 <= BlockSize(f)
  {
    if f.TailC? then (0, C)
    else
      var start := blk * BlockSize(f);
      BlockInside(BlockSize(f), BlockCount(f, C), C, blk);
      (start, if blk == BlockCount(f, C) - 1 then C else start + BlockSize(f))
  }

  /** A block index below the count starts inside [0, C), and a block
      before the last one ends inside it. */
  lemma BlockInside(bs: nat, count: nat, C: nat, blk: nat)
    ensures bs > 0 && C <= count * bs && (count == 0 || (count - 1) * bs < C) && blk < count ==>
              blk * bs < C && (blk + 1 == count ==> C - blk * bs <= bs) && (blk + 1 < count ==> blk * bs + bs < C)
  {
    if bs > 0 && C <= count * bs && (count == 0 || (count - 1) * bs < C) && blk < count {
      MulMonotone(blk, count - 1, bs);
      assert (blk + 1) * bs == blk * bs + bs;
      assert count * bs == (count - 1) * bs + bs;
      if blk + 1 < count {
        MulMonotone(blk + 1, count - 1, bs);
      }
    }
  }

  /** One call of the pooling routine: the block, the channel and the offset
      of the channel inside the block's data (`inResidual`). */
  datatype Visit = Visit(block: nat, channel: nat, residual: nat)

  /** Where channel `c` starts in the source, in units of the channel-block
      stride `blockStride` and the element: channel-last data keeps channels
      adjacent, planar data one channel per block, blocked data `c % bs`
      inside block `c / bs`. */
  function ChannelOffset(f: ChannelFormat, blockStride: nat, c: nat): nat
    requires f.BlockedC? ==> f.blockSize > 0
  {
    match f
    case TailC => c
    case Plain => c * blockStride
    case BlockedC(bs) => (c / bs) * blockStride + c % bs
  }

  /** A channel inside block `blk` has block index `blk` and in-block
      offset `c - blk*bs`. */
  lemma BlockMember(c: nat, bs: nat, blk: nat)
    requires bs > 0 && blk * bs <= c < blk * bs + bs
    ensures c / bs == blk && c % bs == c - blk * bs
  {
    var q, r := c / bs, c % bs;
    assert c == q * bs + r && 0 <= r < bs;
    assert (blk + 1) * bs == blk * bs + bs;
    assert (q + 1) * bs == q * bs + bs;
    MulLtCancel(q, blk + 1, bs);
    MulLtCancel(blk, q + 1, bs);
  }

  /** Blocks tile the channels: each block is a (possibly empty for C == 0)
      range that starts where the previous one ended, and the last ends at C. */
  lemma NextBlock(f: ChannelFormat, C: nat, blk: nat)
    requires f.BlockedC? ==> f.blockSize > 0
    requires blk < BlockCount(f, C)
    ensures blk == 0 ==> BlockRange(f, C, blk).0 == 0
    ensures BlockRange(f, C, blk).0 <= BlockRange(f, C, blk).1
    ensures blk + 1 < BlockCount(f, C) ==> BlockRange(f, C, blk).1 == BlockRange(f, C, blk + 1).0
    ensures blk + 1 == BlockCount(f, C) ==> BlockRange(f, C, blk).1 == C
  {
    match f
    case TailC =>
    case Plain =>
    case BlockedC(bs) =>
      var bc := BlockCount(f, C);
      PoolingBins.CeilDivBounds(C, bs);
      assert (blk + 1) * bs == blk * bs + bs;
      if blk + 1 == bc {
        assert blk * bs < C;
      }
  }

  /** The channels of one block in order; blocks before it have produced
      the visits so far. */
  method VisitBlock(f: ChannelFormat, C: nat, blockStride: nat, blk: nat, visits: seq<Visit>)
    returns (out: seq<Visit>)
    requires f.BlockedC? ==> f.blockSize > 0
    requires f.TailC? ==> blockStride == 1
    requires blk < BlockCount(f, C)
    requires |visits| == BlockRange(f, C, blk).0 <= BlockRange(f, C, blk).1
    requires forall i :: 0 <= i < |visits| ==> visits[i].channel == i && visits[i].block < blk
    requires forall i :: 0 <= i < |visits| ==>
               visits[i].block * blockStride + visits[i].residual == ChannelOffset(f, blockStride, i)
    ensures |out| == BlockRange(f, C, blk).1
    ensures forall i :: 0 <= i < |out| ==> out[i].channel == i && out[i].block <= blk
    ensures forall i :: 0 <= i < |out| ==>
              out[i].block * blockStride + out[i].residual == ChannelOffset(f, blockStride, i)
  {
    var (cStart, cEnd) := BlockRange(f, C, blk);
    var bs := BlockSize(f);
    out := visits;
    var c := cStart;
    while c < cEnd
      invariant cStart <= c <= cEnd
      invariant |out| == c
      invariant forall i :: 0 <= i < |out| ==> out[i].channel == i && out[i].block <= blk
      invariant forall i :: 0 <= i < |out| ==>
                  out[i].block * blockStride + out[i].residual == ChannelOffset(f, blockStride, i)
    {
      var residual := 0;
      if f.TailC? {
        residual := c * blockStride;
      } else if !f.Plain? {
        residual := c % bs;
        BlockMember(c, bs, blk);
      }
      out := out + [Visit(blk, c, residual)];
      c := c + 1;
    }
  }

  /** The channel loops of `execute` for one (n, od, oh, ow): blocks in order,
      channels of each block in order. `blockStride` is `inStrides[1]`, which
      is 1 for channel-last data. Every channel is visited once, in order,
      at its own offset. */
  method ChannelSchedule(f: ChannelFormat, C: nat, blockStride: nat) returns (visits: seq<Visit>)
    requires f.BlockedC? ==> f.blockSize > 0
    requires f.TailC? ==> blockStride == 1
    ensures |visits| == C
    ensures forall i :: 0 <= i < |visits| ==> visits[i].channel == i
    ensures forall i :: 0 <= i < |visits| ==> visits[i].block < BlockCount(f, C)
    ensures forall i :: 0 <= i < |visits| ==>
              visits[i].block * blockStride + visits[i].residual == ChannelOffset(f, blockStride, i)
  {
    var blockCount := BlockCount(f, C);
    visits := [];
    var blk := 0;
    while blk < blockCount
      invariant blk <= blockCount
      invariant blk < blockCount ==> |visits| == BlockRange(f, C, blk).0
      invariant blk == blockCount ==> |visits| == C
      invariant forall i :: 0 <= i < |visits| ==> visits[i].channel == i && visits[i].block < blk
      invariant forall i :: 0 <= i < |visits| ==>
                  visits[i].block * blockStride + visits[i].residual == ChannelOffset(f, blockStride, i)
    {
      NextBlock(f, C, blk);
      visits := VisitBlock(f, C, blockStride, blk, visits);
      blk := blk + 1;
    }
  }
}
