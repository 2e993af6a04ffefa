/** The cache key of a fully-connected oneDNN primitive: four possibly null
    descriptor pointers, the primitive attributes, the sparse-weights flag and
    the model type; its null-aware equality, its order-fixed hash, and the
    lookup-or-create call on the runtime cache. */
module FcKey {
  import opened Common
  import opened FcDescriptors
  import Hashing
  import RuntimeCache

  /** A shared descriptor pointer: null, or an address holding a descriptor. */
  datatype DescPtr = Null | Ptr(addr: nat, desc: MemDesc)

  /** `dnnl::primitive_attr`, opaque and compared by value. */
  datatype PrimitiveAttr = PrimitiveAttr(content: seq<int>)

  /** `Config::ModelType`. */
  datatype ModelType = Cnn | Llm | Unknown

  function ModelCode(t: ModelType): nat
  {
    match t
    case Cnn => 0
    case Llm => 1
    case Unknown => 2
  }

  datatype Key = Key(
    src: DescPtr, wei: DescPtr, bias: DescPtr, dst: DescPtr,
    attr: PrimitiveAttr, sparseWeights: bool, modelType: ModelType)

  /** Pointer identity: both null, or the same address. */
  predicate SamePointer(p: DescPtr, q: DescPtr)
  {
    (p.Null? && q.Null?) || (p.Ptr? && q.Ptr? && p.addr == q.addr)
  }

  /** One descriptor slot of `Key::operator==`: identical pointers match;
      otherwise both must be non-null with equal descriptors. A null pointer
      never matches a non-null one. */
  predicate SlotEq(p: DescPtr, q: DescPtr)
    ensures SlotEq(p, q) ==> (p.Null? <==> q.Null?)
    ensures SamePointer(p, q) || (p.Ptr? && q.Ptr? && p.desc == q.desc) ==> SlotEq(p, q)
  {
    if SamePointer(p, q) then true
    else p.Ptr? && q.Ptr? && p.desc == q.desc
  }

  /** `Key::operator==`. Every key equals itself, and equal keys have their
      null descriptors in the same slots. */
  predicate KeyEq(a: Key, b: Key)
    ensures a == b ==> KeyEq(a, b)
    ensures KeyEq(a, b) ==> (a.src.Null? <==> b.src.Null?) && (a.wei.Null? <==> b.wei.Null?)
                            && (a.bias.Null? <==> b.bias.Null?) && (a.dst.Null? <==> b.dst.Null?)
  {
    && SlotEq(a.src, b.src) && SlotEq(a.wei, b.wei)
    && SlotEq(a.bias, b.bias) && SlotEq(a.dst, b.dst)
    && a.attr == b.attr && a.sparseWeights == b.sparseWeights && a.modelType == b.modelType
  }

  /** One address never holds two different descriptors. */
  predicate Coherent(p: DescPtr, q: DescPtr)
  {
    p.Ptr? && q.Ptr? && p.addr == q.addr ==> p.desc == q.desc
  }

  predicate KeysCoherent(a: Key, b: Key)
  {
    Coherent(a.src, b.src) && Coherent(a.wei, b.wei) && Coherent(a.bias, b.bias) && Coherent(a.dst, b.dst)
  }

  /** Hash contribution of one slot: a null pointer is skipped. */
  function AddSlot(seed: Hashing.Word, p: DescPtr, mdHash: MemDesc -> Hashing.Word): Hashing.Word
  {
    if p.Null? then seed else Hashing.Combine(seed, mdHash(p.desc))
  }

  /** The hash of a slot's descriptor, or nothing for a null pointer. */
  function SlotHashes(p: DescPtr, mdHash: MemDesc -> Hashing.Word): seq<Hashing.Word>
  {
    if p.Null? then [] else [mdHash(p.desc)]
  }

  /** The values a key hash combines: the non-null descriptors in slot
      order, then the attributes, the sparse flag and the model type. */
  function KeyFields(k: Key, mdHash: MemDesc -> Hashing.Word, attrHash: PrimitiveAttr -> Hashing.Word): seq<Hashing.Word>
  {
    SlotHashes(k.src, mdHash) + SlotHashes(k.wei, mdHash) + SlotHashes(k.bias, mdHash) + SlotHashes(k.dst, mdHash)
    + [attrHash(k.attr), Hashing.OfBool(k.sparseWeights), Hashing.OfInt(ModelCode(k.modelType))]
  }

  /** One slot's contribution is the fold over its hashes. */
  lemma AddSlotFold(seed: Hashing.Word, p: DescPtr, mdHash: MemDesc -> Hashing.Word)
    ensures AddSlot(seed, p, mdHash) == Hashing.Fold(seed, SlotHashes(p, mdHash))
  {
    if p.Ptr? {
      Hashing.FoldSnoc(seed, [], mdHash(p.desc));
      assert [] + [mdHash(p.desc)] == [mdHash(p.desc)];
    }
  }

  /** The key hash's chain of combines is the fold over the key's fields. */
  lemma KeyFieldsFold(k: Key, mdHash: MemDesc -> Hashing.Word, attrHash: PrimitiveAttr -> Hashing.Word)
    ensures Hashing.Fold(0, KeyFields(k, mdHash, attrHash)) ==
              var s3 := AddSlot(AddSlot(AddSlot(AddSlot(0, k.src, mdHash), k.wei, mdHash), k.bias, mdHash), k.dst, mdHash);
              Hashing.Combine(Hashing.Combine(Hashing.Combine(s3, attrHash(k.attr)),
                                              Hashing.OfBool(k.sparseWeights)),
                              Hashing.OfInt(ModelCode(k.modelType)))
  {
    var a, b, c, d := SlotHashes(k.src, mdHash), SlotHashes(k.wei, mdHash), SlotHashes(k.bias, mdHash), SlotHashes(k.dst, mdHash);
    var x, y, z := attrHash(k.attr), Hashing.OfBool(k.sparseWeights), Hashing.OfInt(ModelCode(k.modelType));
    var s0 := AddSlot(0, k.src, mdHash);
    var s1 := AddSlot(s0, k.wei, mdHash);
    var s2 := AddSlot(s1, k.bias, mdHash);
    var s3 := AddSlot(s2, k.dst, mdHash);
    AddSlotFold(0, k.src, mdHash);
    AddSlotFold(s0, k.wei, mdHash);
    AddSlotFold(s1, k.bias, mdHash);
    AddSlotFold(s2, k.dst, mdHash);
    Hashing.FoldAppend(0, a, b);
    Hashing.FoldAppend(0, a + b, c);
    Hashing.FoldAppend(0, a + b + c, d);
    Hashing.FoldAppend(0, a + b + c + d, [x, y, z]);
    Hashing.FoldThree(s3, x, y, z);
  }

  /** `Key::hash`: non-null descriptors in the order src, wei, bias, dst,
      then the attributes, the sparse flag and the model type, each combined
      into the seed in turn; a null slot contributes nothing. The oneDNN
      descriptor and attribute hashes are the parameters. */
  function KeyHash(k: Key, mdHash: MemDesc -> Hashing.Word, attrHash: PrimitiveAttr -> Hashing.Word): (r: Hashing.Word)
    ensures r == Hashing.Fold(0, KeyFields(k, mdHash, attrHash))
  {
    KeyFieldsFold(k, mdHash, attrHash);
    var s0 := AddSlot(0, k.src, mdHash);
    var s1 := AddSlot(s0, k.wei, mdHash);
    var s2 := AddSlot(s1, k.bias, mdHash);
    var s3 := AddSlot(s2, k.dst, mdHash);
    var s4 := Hashing.Combine(s3, attrHash(k.attr));
    var s5 := Hashing.Combine(s4, Hashing.OfBool(k.sparseWeights));
    Hashing.Combine(s5, Hashing.OfInt(ModelCode(k.modelType)))
  }

  /** Over coherent pointers a slot matches exactly when both are null or
      both hold equal descriptors; a null never matches a non-null pointer. */
  lemma SlotEqCharacterization(p: DescPtr, q: DescPtr)
    requires Coherent(p, q)
    ensures SlotEq(p, q) <==> (p.Null? && q.Null?) || (p.Ptr? && q.Ptr? && p.desc == q.desc)
  {
  }

  /** Equal keys hash equally, whatever the descriptor and attribute hashes. */
  lemma KeyHashRespectsEq(a: Key, b: Key, mdHash: MemDesc -> Hashing.Word, attrHash: PrimitiveAttr -> Hashing.Word)
    requires KeysCoherent(a, b)
    requires KeyEq(a, b)
    ensures KeyHash(a, mdHash, attrHash) == KeyHash(b, mdHash, attrHash)
  {
    SlotEqCharacterization(a.src, b.src);
    SlotEqCharacterization(a.wei, b.wei);
    SlotEqCharacterization(a.bias, b.bias);
    SlotEqCharacterization(a.dst, b.dst);
  }

  /** Key equality is reflexive and symmetric, and transitive over one
      coherent set of pointers. */
  lemma KeyEqIsEquivalence(a: Key, b: Key, c: Key)
    requires KeysCoherent(a, b) && KeysCoherent(b, c) && KeysCoherent(a, c)
    ensures KeyEq(a, a)
    ensures KeyEq(a, b) ==> KeyEq(b, a)
    ensures KeyEq(a, b) && KeyEq(b, c) ==> KeyEq(a, c)
  {
    SlotEqCharacterization(a.src, b.src);
    SlotEqCharacterization(a.wei, b.wei);
    SlotEqCharacterization(a.bias, b.bias);
    SlotEqCharacterization(a.dst, b.dst);
    SlotEqCharacterization(b.src, c.src);
    SlotEqCharacterization(b.wei, c.wei);
    SlotEqCharacterization(b.bias, c.bias);
    SlotEqCharacterization(b.dst, c.dst);
    SlotEqCharacterization(a.src, c.src);
    SlotEqCharacterization(a.wei, c.wei);
    SlotEqCharacterization(a.bias, c.bias);
    SlotEqCharacterization(a.dst, c.dst);
  }

  /** Skipping null slots lets a descriptor in the src slot and the same
      descriptor in the wei slot hash alike, although the keys differ: the
      hash only buckets, equality decides. */
  lemma NullSkippingCollides(p: DescPtr, attr: PrimitiveAttr, sparse: bool, model: ModelType,
                             mdHash: MemDesc -> Hashing.Word, attrHash: PrimitiveAttr -> Hashing.Word)
    requires p.Ptr?
    ensures var a := Key(p, Null, Null, Null, attr, sparse, model);
            var b := Key(Null, p, Null, Null, attr, sparse, model);
            KeyHash(a, mdHash, attrHash) == KeyHash(b, mdHash, attrHash) && !KeyEq(a, b)
  {
  }

  /** The descriptors taken from the executor's memory arguments. */
  datatype MemoryDescs = MemoryDescs(src: DescPtr, wei: DescPtr, bias: DescPtr, dst: DescPtr)

  type PrimitiveCache = RuntimeCache.Cache<Key, nat>

  /** `DnnlFCPrimitive::create`: builds the key from the memory descriptors,
      the shape-agnostic attributes and the FC attributes, and asks the
      runtime cache for it; the builder (primitive construction, a handle
      here) runs only when no equal key is cached. */
  function Create(cache: PrimitiveCache, mem: MemoryDescs, attr: PrimitiveAttr, sparseWeights: bool,
                  modelType: ModelType, build: Key -> nat): (r: RuntimeCache.Lookup<Key, nat>)
    ensures var k := Key(mem.src, mem.wei, mem.bias, mem.dst, attr, sparseWeights, modelType);
            && (r.built <==> forall j :: 0 <= j < |cache| ==> !KeyEq(cache[j].key, k))
            && (!r.built ==> r.cache == cache)
            && (!r.built ==> exists j :: 0 <= j < |cache| && KeyEq(cache[j].key, k) && r.value == cache[j].value)
            && (r.built ==> r.value == build(k) && r.cache == cache + [RuntimeCache.Entry(k, build(k))])
  {
    var k := Key(mem.src, mem.wei, mem.bias, mem.dst, attr, sparseWeights, modelType);
    RuntimeCache.GetOrCreate(cache, k, KeyEq, build)
  }
}
