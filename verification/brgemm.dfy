/** The brgemm kernel executor: the configuration that identifies a compiled
    microkernel, its compilation through an opaque code generator, the lookup
    in the shared kernel cache, and the per-call dispatch. */
module Brgemm {
  import opened Common
  import opened ElementTypes
  import Hashing
  import RuntimeCache

  /** `cpu_isa_t`, an opaque instruction-set tier. */
  type Isa = nat

  /** One entry of a `dnnl_post_ops` chain; only its identity matters here. */
  datatype PostOp = PostOp(kind: nat, params: seq<int>)

  /** The compile-relevant fields held by the base class. */
  datatype StaticBaseParams = StaticBaseParams(
    dtIn0: ElementType,
    dtIn1: ElementType,
    dtOut: ElementType,
    isa: Isa,
    postOps: seq<PostOp>)

  /** `BrgemmKernelConfig::StaticParams`: the base fields, the compensation
      flag, and the hash computed when the object is built. */
  datatype StaticParams = StaticParams(base: StaticBaseParams, isWithComp: bool, hash: Hashing.Word)

  /** The per-call fields: problem size, leading dimensions and beta. */
  datatype Dims = Dims(M: nat, N: nat, K: nat, LDA: nat, LDB: nat, LDC: nat, beta: real)

  /** `BrgemmKernelConfig`: shared static part, dynamic part, stored hash. */
  datatype KernelConfig = KernelConfig(params: StaticParams, dims: Dims, hash: Hashing.Word)

  /** What the lowering pipeline's `brgemm_utils::BrgemmConfig` supplies. */
  datatype BrgemmConfig = BrgemmConfig(srcDt: ElementType, weiDt: ElementType, withCompensations: bool, isa: Isa)

  /** `StaticParams::compute_hash(is_with_comp)`: the seed handed to the base.
      The two flag values give different seeds. */
  function CompHash(isWithComp: bool): (r: Hashing.Word)
    ensures r != Hashing.Combine(0, Hashing.OfBool(!isWithComp))
  {
    Hashing.CombineFromZeroInjective(Hashing.OfBool(isWithComp), Hashing.OfBool(!isWithComp));
    Hashing.Combine(0, Hashing.OfBool(isWithComp))
  }

  /** Folds the base fields into the seed (the base class's own hash). */
  function BaseHash(seed: Hashing.Word, b: StaticBaseParams): Hashing.Word
  {
    var h0 := Hashing.Combine(seed, Hashing.OfInt(Code(b.dtIn0)));
    var h1 := Hashing.Combine(h0, Hashing.OfInt(Code(b.dtIn1)));
    var h2 := Hashing.Combine(h1, Hashing.OfInt(Code(b.dtOut)));
    var h3 := Hashing.Combine(h2, Hashing.OfInt(b.isa));
    Hashing.Combine(h3, Hashing.OfInt(|b.postOps|))
  }

  /** The hash a `StaticParams` must carry given its fields. */
  ghost predicate ValidStatic(p: StaticParams)
  {
    p.hash == BaseHash(CompHash(p.isWithComp), p.base)
  }

  /** `StaticParams::operator==`: base fields equal and compensation flags
      equal. The stored hash is derived from those fields, so on parameters
      whose hash is current this is plain equality. */
  predicate StaticEq(a: StaticParams, b: StaticParams)
    ensures a == b ==> StaticEq(a, b)
    ensures ValidStatic(a) && ValidStatic(b) ==> (StaticEq(a, b) <==> a == b)
  {
    a.base == b.base && a.isWithComp == b.isWithComp
  }

  /** The `StaticParams` constructor. */
  function MakeStaticParams(in0: ElementType, in1: ElementType, out: ElementType,
                            isWithComp: bool, isa: Isa, postOps: seq<PostOp>): (p: StaticParams)
    ensures ValidStatic(p)
    ensures p.base == StaticBaseParams(in0, in1, out, isa, postOps) && p.isWithComp == isWithComp
  {
    var base := StaticBaseParams(in0, in1, out, isa, postOps);
    StaticParams(base, isWithComp, BaseHash(CompHash(isWithComp), base))
  }

  /** The hash over static and dynamic fields (`compute_hash()`). */
  function ConfigHash(p: StaticParams, d: Dims): (r: Hashing.Word)
    ensures r == Hashing.Fold(p.hash, DimFields(d))
  {
    DimFieldsFold(p.hash, d);
    var h0 := Hashing.Combine(p.hash, Hashing.OfInt(d.M));
    var h1 := Hashing.Combine(h0, Hashing.OfInt(d.N));
    var h2 := Hashing.Combine(h1, Hashing.OfInt(d.K));
    var h3 := Hashing.Combine(h2, Hashing.OfInt(d.LDA));
    var h4 := Hashing.Combine(h3, Hashing.OfInt(d.LDB));
    var h5 := Hashing.Combine(h4, Hashing.OfInt(d.LDC));
    Hashing.Combine(h5, Hashing.OfInt(d.beta.Floor))
  }

  /** The dynamic fields in the order the config hash takes them. */
  function DimFields(d: Dims): seq<Hashing.Word>
  {
    [Hashing.OfInt(d.M), Hashing.OfInt(d.N), Hashing.OfInt(d.K),
     Hashing.OfInt(d.LDA), Hashing.OfInt(d.LDB), Hashing.OfInt(d.LDC), Hashing.OfInt(d.beta.Floor)]
  }

  /** The fold over the dynamic fields, one `Combine` per field. */
  lemma DimFieldsFold(seed: Hashing.Word, d: Dims)
    ensures Hashing.Fold(seed, DimFields(d)) ==
              var h0 := Hashing.Combine(seed, Hashing.OfInt(d.M));
              var h1 := Hashing.Combine(h0, Hashing.OfInt(d.N));
              var h2 := Hashing.Combine(h1, Hashing.OfInt(d.K));
              var h3 := Hashing.Combine(h2, Hashing.OfInt(d.LDA));
              var h4 := Hashing.Combine(h3, Hashing.OfInt(d.LDB));
              var h5 := Hashing.Combine(h4, Hashing.OfInt(d.LDC));
              Hashing.Combine(h5, Hashing.OfInt(d.beta.Floor))
  {
    var fs := DimFields(d);
    Hashing.FoldSeven(seed, fs[0], fs[1], fs[2], fs[3], fs[4], fs[5], fs[6]);
    assert fs == [fs[0], fs[1], fs[2], fs[3], fs[4], fs[5], fs[6]];
  }

  /** A config whose stored hash is the hash of its current fields. */
  ghost predicate ValidConfig(c: KernelConfig)
  {
    ValidStatic(c.params) && c.hash == ConfigHash(c.params, c.dims)
  }

  /** Config equality: equal static parts and equal dynamic fields. */
  predicate ConfigEq(a: KernelConfig, b: KernelConfig)
  {
    StaticEq(a.params, b.params) && a.dims == b.dims
  }

  /** A config with a zero-sized problem is not executable: it performs no
      multiply-add at all. */
  predicate IsEmpty(c: KernelConfig)
    ensures IsEmpty(c) <==> c.dims.M * c.dims.N * c.dims.K == 0
  {
    ProductZero(c.dims.M, c.dims.N, c.dims.K);
    c.dims.M == 0 || c.dims.N == 0 || c.dims.K == 0
  }

  lemma ProductZero(m: nat, n: nat, k: nat)
    ensures m * n * k == 0 <==> m == 0 || n == 0 || k == 0
  {
    if m > 0 && n > 0 && k > 0 {
      MulMonotone(1, m, n);
      MulMonotone(1, m * n, k);
    }
  }

  const DefaultDims := Dims(0, 0, 0, 0, 0, 0, 0.0)

  /** The `BrgemmKernelConfig` constructor: static part from the brgemm config,
      the output type and the post-ops; dynamic fields at their defaults;
      hash computed once and stored. */
  function MakeConfig(bc: BrgemmConfig, outDt: ElementType, postOps: seq<PostOp>): (c: KernelConfig)
    ensures ValidConfig(c)
    ensures c.params.base == StaticBaseParams(bc.srcDt, bc.weiDt, outDt, bc.isa, postOps)
    ensures c.params.isWithComp == bc.withCompensations
    ensures IsEmpty(c)
  {
    var p := MakeStaticParams(bc.srcDt, bc.weiDt, outDt, bc.withCompensations, bc.isa, postOps);
    KernelConfig(p, DefaultDims, ConfigHash(p, DefaultDims))
  }

  /** `update_config`: new dynamic fields from the IR, hash recomputed. */
  function Update(c: KernelConfig, d: Dims): (r: KernelConfig)
    requires ValidConfig(c)
    ensures ValidConfig(r)
    ensures StaticEq(r.params, c.params) && r.params == c.params && r.dims == d
  {
    KernelConfig(c.params, d, ConfigHash(c.params, d))
  }

  /** Two `StaticParams` are equal exactly when all base fields and the
      compensation flags agree; the flag alone separates them. */
  lemma StaticEqCharacterization(a: StaticParams, b: StaticParams)
    ensures StaticEq(a, b) <==>
              && a.base.dtIn0 == b.base.dtIn0 && a.base.dtIn1 == b.base.dtIn1
              && a.base.dtOut == b.base.dtOut && a.base.isa == b.base.isa
              && a.base.postOps == b.base.postOps
              && a.isWithComp == b.isWithComp
    ensures a.base == b.base && a.isWithComp != b.isWithComp ==> !StaticEq(a, b)
  {
  }

  /** Equal `StaticParams` carry equal hashes. */
  lemma {:induction false} StaticHashRespectsEq(a: StaticParams, b: StaticParams)
    requires ValidStatic(a) && ValidStatic(b)
    requires StaticEq(a, b)
    ensures a.hash == b.hash
  {
  }

  /** Equal configs carry equal stored hashes, so the hash can bucket them. */
  lemma ConfigHashRespectsEq(a: KernelConfig, b: KernelConfig)
    requires ValidConfig(a) && ValidConfig(b)
    requires ConfigEq(a, b)
    ensures a.hash == b.hash
  {
    StaticHashRespectsEq(a.params, b.params);
  }

  /** Configs that differ only in the compensation flag are never equal,
      whatever their dynamic fields. */
  lemma CompensationFlagSeparatesConfigs(a: KernelConfig, b: KernelConfig)
    requires a.params.isWithComp != b.params.isWithComp
    ensures !ConfigEq(a, b)
  {
  }

  lemma ConfigEqIsEquivalence()
    ensures RuntimeCache.IsEquivalence(ConfigEq)
  {
  }

  // ---------------------------------------------------------------------
  // Compilation

  /** The arguments handed to `create_brgemm_kernel`. */
  datatype GenRequest = GenRequest(
    dtIn0: ElementType, dtIn1: ElementType, dtOut: ElementType, isa: Isa,
    M: nat, N: nat, K: nat, LDA: nat, LDB: nat, LDC: nat, beta: real,
    postOps: seq<PostOp>)

  /** The microkernel a compiled kernel holds: a JIT artifact identified by the
      generator's handle, or the reference interpreter for a config. */
  datatype Microkernel = Jit(handle: nat) | Reference(config: KernelConfig)

  /** `BrgemmCompiledKernel`: a possibly null `brgemm_kernel`. */
  datatype CompiledKernel = CompiledKernel(kernel: Option<Microkernel>)

  /** A compilation and the generator call it made, if any. */
  datatype Compilation = Compilation(compiled: CompiledKernel, request: Option<GenRequest>)

  /** `BrgemmKernelExecutor::compile_kernel`. The code generator is the
      opaque parameter `gen`. */
  function CompileKernel(c: KernelConfig, gen: GenRequest -> nat): (r: Compilation)
    ensures r.request.None? <==> IsEmpty(c)
    ensures IsEmpty(c) ==> r.compiled.kernel.None?
    ensures r.request.Some? ==>
              var q := r.request.value;
              && q.dtIn0 == c.params.base.dtIn0 && q.dtIn1 == c.params.base.dtIn1
              && q.dtOut == c.params.base.dtOut && q.isa == c.params.base.isa
              && q.M == c.dims.M && q.N == c.dims.N && q.K == c.dims.K
              && q.LDA == c.dims.LDA && q.LDB == c.dims.LDB && q.LDC == c.dims.LDC
              && q.beta == c.dims.beta && q.postOps == c.params.base.postOps
              && r.compiled.kernel == Some(Jit(gen(q)))
  {
    if IsEmpty(c) then
      Compilation(CompiledKernel(None), None)
    else
      var q := GenRequest(c.params.base.dtIn0, c.params.base.dtIn1, c.params.base.dtOut, c.params.base.isa,
                          c.dims.M, c.dims.N, c.dims.K, c.dims.LDA, c.dims.LDB, c.dims.LDC, c.dims.beta,
                          c.params.base.postOps);
      Compilation(CompiledKernel(Some(Jit(gen(q)))), Some(q))
  }

  /** Compilation depends only on the fields config equality compares. */
  lemma CompileRespectsEq(a: KernelConfig, b: KernelConfig, gen: GenRequest -> nat)
    requires ConfigEq(a, b)
    ensures CompileKernel(a, gen) == CompileKernel(b, gen)
  {
  }

  type KernelCache = RuntimeCache.Cache<KernelConfig, CompiledKernel>

  /** The executor's view of the shared cache after a kernel update. */
  datatype KernelUpdate = KernelUpdate(cache: Option<KernelCache>, kernel: CompiledKernel, compiled: bool)

  /** Looks up the kernel for `c` in the shared cache, compiling on a miss.
      An expired cache (`None`) means: compile, and keep nothing. */
  function UpdateKernel(cache: Option<KernelCache>, c: KernelConfig, gen: GenRequest -> nat): (r: KernelUpdate)
    ensures cache.None? ==> r.cache.None? && r.compiled && r.kernel == CompileKernel(c, gen).compiled
    ensures cache.Some? && r.compiled ==>
              && r.cache == Some(cache.value + [RuntimeCache.Entry(c, CompileKernel(c, gen).compiled)])
              && r.kernel == CompileKernel(c, gen).compiled
    ensures cache.Some? && !r.compiled ==> r.cache == cache
    ensures cache.Some? ==>
              (!r.compiled <==> exists j :: 0 <= j < |cache.value| && ConfigEq(cache.value[j].key, c))
  {
    match cache
    case None => KernelUpdate(None, CompileKernel(c, gen).compiled, true)
    case Some(kc) =>
      var look := RuntimeCache.GetOrCreate(kc, c, ConfigEq, (k: KernelConfig) => CompileKernel(k, gen).compiled);
      KernelUpdate(Some(look.cache), look.value, look.built)
  }

  /** Compile once, reuse many: after one update, any equal config finds the
      same compiled kernel without another generator call. */
  lemma UpdateKernelCompilesOnce(kc: KernelCache, a: KernelConfig, b: KernelConfig, gen: GenRequest -> nat)
    requires RuntimeCache.Unique(kc, ConfigEq)
    requires ConfigEq(a, b)
    ensures var first := UpdateKernel(Some(kc), a, gen);
            var second := UpdateKernel(first.cache, b, gen);
            && !second.compiled && second.kernel == first.kernel && second.cache == first.cache
  {
    ConfigEqIsEquivalence();
    RuntimeCache.SecondLookupHits(kc, a, b, ConfigEq, (k: KernelConfig) => CompileKernel(k, gen).compiled);
  }

  /** Refreshing a config with unchanged metadata changes nothing, so the
      kernel update that follows the second refresh finds the kernel the
      first one stored and does not call the generator again. */
  lemma UpdateIdempotent(kc: KernelCache, c: KernelConfig, d: Dims, gen: GenRequest -> nat)
    requires ValidConfig(c)
    requires RuntimeCache.Unique(kc, ConfigEq)
    ensures Update(Update(c, d), d) == Update(c, d)
    ensures var first := UpdateKernel(Some(kc), Update(c, d), gen);
            var second := UpdateKernel(first.cache, Update(Update(c, d), d), gen);
            && !second.compiled && second.kernel == first.kernel && second.cache == first.cache
  {
    UpdateKernelCompilesOnce(kc, Update(c, d), Update(Update(c, d), d), gen);
  }

  // ---------------------------------------------------------------------
  // Dispatch

  /** Per-call pointers supplied by the generated code (`call_args`). */
  datatype CallArgs = CallArgs(A: nat, B: nat, C: nat, scratch: nat, postOpsBinaryArgs: seq<nat>)

  /** An executor's live state: its config and the kernel its last update found. */
  datatype ExecutorState = ExecutorState(config: KernelConfig, kernel: Option<CompiledKernel>)

  /** The arguments of the `execute_brgemm_kernel` call. */
  datatype Invocation = Invocation(
    kernel: Option<Microkernel>, args: CallArgs, withComp: bool, applyPostOps: bool)

  /** `BrgemmKernelExecutor::execute`: fails on a null executor or kernel;
      otherwise forwards the call pointers, asks for compensation only on the
      first accumulation step (beta == 0) of a config that needs it, and
      always applies post-ops. */
  function Execute(executor: Option<ExecutorState>, args: CallArgs): (r: Result<Invocation>)
    ensures r.Ok? <==> executor.Some? && executor.value.kernel.Some?
    ensures r.Ok? ==>
              var cfg := executor.value.config;
              && r.value.kernel == executor.value.kernel.value.kernel
              && r.value.args == args
              && (r.value.withComp <==> cfg.dims.beta == 0.0 && cfg.params.isWithComp)
              && r.value.applyPostOps
  {
    if executor.None? then Err("has nullptr executor")
    else if executor.value.kernel.None? then Err("has nullptr compiler kernel or invalid config")
    else
      var cfg := executor.value.config;
      Ok(Invocation(executor.value.kernel.value.kernel, args,
                    cfg.dims.beta == 0.0 && cfg.params.isWithComp, true))
  }

  /** Compensation is requested on at most one step of an accumulation chain:
      once beta is non-zero the same static config never asks for it. */
  lemma CompensationOnlyWhenOverwriting(e: ExecutorState, args: CallArgs)
    requires e.kernel.Some?
    requires e.config.dims.beta != 0.0 || !e.config.params.isWithComp
    ensures Execute(Some(e), args).Ok?
    ensures !Execute(Some(e), args).value.withComp
  {
  }
}
