/** The debug reference executor: compiles every config to an interpreter
    (`brgemm_ref_kernel`) that runs a plain strided matrix multiply. Element
    values are integers standing in for f32. */
module BrgemmReference {
  import opened Common
  import opened ElementTypes
  import opened Brgemm

  /** `brgemm_ref_kernel`: a config the reference interpreter accepts. */
  datatype RefKernel = RefKernel(config: KernelConfig)

  /** The `brgemm_ref_kernel` constructor: compensation is unsupported and all
      three data types must be f32. */
  function MakeRefKernel(c: KernelConfig): (r: Result<RefKernel>)
    ensures r.Ok? <==> !c.params.isWithComp && c.params.base.dtIn0 == F32
                       && c.params.base.dtIn1 == F32 && c.params.base.dtOut == F32
    ensures r.Ok? ==> r.value.config == c
  {
    if c.params.isWithComp then Err("brgemm_ref_kernel doesn't currently support compensations")
    else if !(c.params.base.dtIn0 == F32 && c.params.base.dtIn1 == F32 && c.params.base.dtOut == F32) then
      Err("brgemm_ref_kernel currently supports only fp32 precisions")
    else Ok(RefKernel(c))
  }

  /** `BrgemmKernelReferenceExecutor::compile_kernel`: never calls the code
      generator; the compiled kernel holds the reference interpreter, even
      for an empty config. */
  function CompileReference(c: KernelConfig): (r: Result<CompiledKernel>)
    ensures r.Ok? <==> MakeRefKernel(c).Ok?
    ensures r.Ok? ==> r.value.kernel == Some(Reference(c))
  {
    match MakeRefKernel(c)
    case Err(msg) => Err(msg)
    case Ok(k) => Ok(CompiledKernel(Some(Reference(k.config))))
  }

  /** Element offset of (row, col) in a matrix with leading dimension `ld`. */
  function Offset(row: nat, ld: nat, col: nat): nat
  {
    row * ld + col
  }

  /** Every A and B element the multiply reads lies in its buffer. */
  ghost predicate OperandsFit(d: Dims, A: seq<int>, B: seq<int>)
  {
    && (forall m, k :: 0 <= m < d.M && 0 <= k < d.K ==> Offset(m, d.LDA, k) < |A|)
    && (forall k, n :: 0 <= k < d.K && 0 <= n < d.N ==> Offset(k, d.LDB, n) < |B|)
  }

  /** Every C slot the multiply writes lies in its buffer. */
  ghost predicate ResultFits(d: Dims, C: seq<int>)
  {
    forall m, n :: 0 <= m < d.M && 0 <= n < d.N ==> Offset(m, d.LDC, n) < |C|
  }

  /** Output rows do not overlap: one row, or LDC at least N. */
  predicate RowsDisjoint(d: Dims)
  {
    d.M <= 1 || d.N <= d.LDC
  }

  /** Sum of the first `k` products of row `m` of A and column `n` of B. */
  ghost function Dot(A: seq<int>, B: seq<int>, d: Dims, m: nat, n: nat, k: nat): int
    requires m < d.M && n < d.N && k <= d.K
    requires OperandsFit(d, A, B)
  {
    if k == 0 then 0
    else Dot(A, B, d, m, n, k - 1) + A[Offset(m, d.LDA, k - 1)] * B[Offset(k - 1, d.LDB, n)]
  }

  /** The slot at index `i` belongs to row `m` of C. */
  ghost predicate InRow(i: int, d: Dims, m: nat)
  {
    exists n :: 0 <= n < d.N && i == Offset(m, d.LDC, n)
  }

  /** The slot at index `i` belongs to one of the first `rows` rows of C. */
  ghost predicate Written(i: int, d: Dims, rows: nat)
  {
    exists m :: 0 <= m < rows && InRow(i, d, m)
  }

  /** In disjoint rows every slot of an earlier row precedes every slot of a
      later one. */
  lemma RowsOrdered(d: Dims, m: nat, n: nat, m': nat, n': nat)
    requires RowsDisjoint(d)
    requires m < m' < d.M && n < d.N
    ensures Offset(m, d.LDC, n) < Offset(m', d.LDC, n')
  {
    assert d.N <= d.LDC;
    MulMonotone(m + 1, m', d.LDC);
    assert (m + 1) * d.LDC == m * d.LDC + d.LDC;
  }

  /** Distinct (row, col) pairs in disjoint rows land on distinct slots. */
  lemma OffsetInjective(d: Dims, m: nat, n: nat, m': nat, n': nat)
    requires RowsDisjoint(d)
    requires m < d.M && m' < d.M && n < d.N && n' < d.N
    requires Offset(m, d.LDC, n) == Offset(m', d.LDC, n')
    ensures m == m' && n == n'
  {
    if m < m' {
      RowsOrdered(d, m, n, m', n');
    } else if m' < m {
      RowsOrdered(d, m', n', m, n);
    }
  }

  /** The innermost loop: clears one C slot and accumulates the K products
      into it, reading A from `aOff` and B from `bOff` with stride LDB. */
  method AccumulateSlot(A: seq<int>, B: seq<int>, d: Dims, m: nat, n: nat,
                        aOff: nat, bOff: nat, slot: nat, C: seq<int>) returns (out: seq<int>)
    requires m < d.M && n < d.N
    requires OperandsFit(d, A, B)
    requires aOff == Offset(m, d.LDA, 0) && bOff == n
    requires slot < |C|
    ensures |out| == |C|
    ensures out[slot] == Dot(A, B, d, m, n, d.K)
    ensures forall i :: 0 <= i < |C| && i != slot ==> out[i] == C[i]
  {
    out := C[slot := 0];
    var k := 0;
    while k < d.K
      invariant k <= d.K
      invariant |out| == |C|
      invariant out[slot] == Dot(A, B, d, m, n, k)
      invariant forall i :: 0 <= i < |C| && i != slot ==> out[i] == C[i]
    {
      assert Offset(m, d.LDA, k) == aOff + k;
      assert Offset(k, d.LDB, n) == k * d.LDB + bOff;
      out := out[slot := out[slot] + A[aOff + k] * B[k * d.LDB + bOff]];
      k := k + 1;
    }
  }

  /** One row of the kernel: the column loop, B advancing by one per column. */
  method RunRow(A: seq<int>, B: seq<int>, d: Dims, m: nat, aOff: nat, bStart: nat, cOff: nat, C: seq<int>)
    returns (out: seq<int>, bOff: nat)
    requires m < d.M
    requires OperandsFit(d, A, B)
    requires ResultFits(d, C)
    requires RowsDisjoint(d)
    requires aOff == Offset(m, d.LDA, 0) && cOff == Offset(m, d.LDC, 0) && bStart == 0
    ensures |out| == |C|
    ensures bOff == d.N
    ensures forall n :: 0 <= n < d.N ==> out[Offset(m, d.LDC, n)] == Dot(A, B, d, m, n, d.K)
    ensures forall i :: 0 <= i < |C| && !InRow(i, d, m) ==> out[i] == C[i]
  {
    out := C;
    bOff := bStart;
    var n := 0;
    while n < d.N
      invariant n <= d.N
      invariant |out| == |C|
      invariant bOff == n
      invariant forall n' :: 0 <= n' < n ==> out[Offset(m, d.LDC, n')] == Dot(A, B, d, m, n', d.K)
      invariant forall i :: 0 <= i < |C| && !(exists n' :: 0 <= n' < n && i == Offset(m, d.LDC, n')) ==>
                  out[i] == C[i]
    {
      var slot := cOff + n;
      assert slot == Offset(m, d.LDC, n);
      out := AccumulateSlot(A, B, d, m, n, aOff, bOff, slot, out);
      forall n' | 0 <= n' < n
        ensures out[Offset(m, d.LDC, n')] == Dot(A, B, d, m, n', d.K)
      {
        assert Offset(m, d.LDC, n') < slot;
      }
      n := n + 1;
      bOff := bOff + 1;
    }
  }

  /** Writing row `m` after rows 0..m-1 keeps the earlier rows' dot
      products and the slots outside rows 0..m. */
  lemma RowCompleted(A: seq<int>, B: seq<int>, d: Dims, C: seq<int>, prev: seq<int>, out: seq<int>, m: nat)
    requires m < d.M && OperandsFit(d, A, B) && ResultFits(d, C) && RowsDisjoint(d)
    requires |prev| == |C| && |out| == |C|
    requires forall m', n' :: 0 <= m' < m && 0 <= n' < d.N ==>
               prev[Offset(m', d.LDC, n')] == Dot(A, B, d, m', n', d.K)
    requires forall i :: 0 <= i < |C| && !Written(i, d, m) ==> prev[i] == C[i]
    requires forall n :: 0 <= n < d.N ==> out[Offset(m, d.LDC, n)] == Dot(A, B, d, m, n, d.K)
    requires forall i :: 0 <= i < |C| && !InRow(i, d, m) ==> out[i] == prev[i]
    ensures forall m', n' :: 0 <= m' < m + 1 && 0 <= n' < d.N ==>
              out[Offset(m', d.LDC, n')] == Dot(A, B, d, m', n', d.K)
    ensures forall i :: 0 <= i < |C| && !Written(i, d, m + 1) ==> out[i] == C[i]
  {
    forall m', n' | 0 <= m' < m && 0 <= n' < d.N
      ensures out[Offset(m', d.LDC, n')] == Dot(A, B, d, m', n', d.K)
    {
      forall n | 0 <= n < d.N
        ensures Offset(m', d.LDC, n') != Offset(m, d.LDC, n)
      {
        RowsOrdered(d, m', n', m, n);
      }
    }
    forall i | 0 <= i < |C| && !Written(i, d, m + 1)
      ensures out[i] == C[i]
    {
      assert !InRow(i, d, m);
      assert !Written(i, d, m);
    }
  }

  /** `brgemm_ref_kernel::operator()`: for every m < M and n < N the C slot
      m*LDC + n is overwritten (not accumulated) with the dot product of row m
      of A and column n of B; no other slot changes. The pointer walk of the
      source is kept: A and C advance by a leading dimension per row, B by one
      per column and back to the first column at the end of each row. */
  method Run(kernel: RefKernel, A: seq<int>, B: seq<int>, C: seq<int>) returns (out: seq<int>)
    requires OperandsFit(kernel.config.dims, A, B)
    requires ResultFits(kernel.config.dims, C)
    requires RowsDisjoint(kernel.config.dims)
    ensures |out| == |C|
    ensures forall m, n :: 0 <= m < kernel.config.dims.M && 0 <= n < kernel.config.dims.N ==>
              out[Offset(m, kernel.config.dims.LDC, n)] == Dot(A, B, kernel.config.dims, m, n, kernel.config.dims.K)
    ensures forall i :: 0 <= i < |C| && !Written(i, kernel.config.dims, kernel.config.dims.M) ==> out[i] == C[i]
  {
    var d := kernel.config.dims;
    out := C;
    var aOff, bOff, cOff := 0, 0, 0;
    var m := 0;
    while m < d.M
      invariant m <= d.M
      invariant |out| == |C|
      invariant aOff == Offset(m, d.LDA, 0) && cOff == Offset(m, d.LDC, 0) && bOff == 0
      invariant forall m', n' :: 0 <= m' < m && 0 <= n' < d.N ==>
                  out[Offset(m', d.LDC, n')] == Dot(A, B, d, m', n', d.K)
      invariant forall i :: 0 <= i < |C| && !Written(i, d, m) ==> out[i] == C[i]
    {
      var bEnd, prev := 0, out;
      out, bEnd := RunRow(A, B, d, m, aOff, bOff, cOff, out);
      RowCompleted(A, B, d, C, prev, out, m);
      assert Offset(m + 1, d.LDA, 0) == aOff + d.LDA && Offset(m + 1, d.LDC, 0) == cOff + d.LDC;
      bOff := bEnd - d.N;
      aOff := aOff + d.LDA;
      cOff := cOff + d.LDC;
      m := m + 1;
    }
  }

  /** A is the K-by-K identity under its leading dimension (so M == K). */
  ghost predicate IsIdentity(A: seq<int>, d: Dims)
  {
    && d.M == d.K
    && forall m, k :: 0 <= m < d.M && 0 <= k < d.K ==>
         Offset(m, d.LDA, k) < |A| && A[Offset(m, d.LDA, k)] == (if m == k then 1 else 0)
  }

  /** With an identity A, the first `k` products of row `m` pick out B's
      element (m, n) once `k` passes the diagonal, and nothing before. */
  lemma {:induction false} DotIdentity(A: seq<int>, B: seq<int>, d: Dims, m: nat, n: nat, k: nat)
    requires m < d.M && n < d.N && k <= d.K
    requires OperandsFit(d, A, B) && IsIdentity(A, d)
    ensures Dot(A, B, d, m, n, k) == if m < k then B[Offset(m, d.LDB, n)] else 0
  {
    if k > 0 {
      DotIdentity(A, B, d, m, n, k - 1);
    }
  }

  /** The reference kernel run on an identity A copies B into C slot by slot,
      row by row through the two leading dimensions, and leaves every other
      C slot as it was. */
  method IdentityTimesMatrix(kernel: RefKernel, A: seq<int>, B: seq<int>, C: seq<int>) returns (out: seq<int>)
    requires OperandsFit(kernel.config.dims, A, B)
    requires ResultFits(kernel.config.dims, C)
    requires RowsDisjoint(kernel.config.dims)
    requires IsIdentity(A, kernel.config.dims)
    ensures |out| == |C|
    ensures forall m, n :: 0 <= m < kernel.config.dims.M && 0 <= n < kernel.config.dims.N ==>
              out[Offset(m, kernel.config.dims.LDC, n)] == B[Offset(m, kernel.config.dims.LDB, n)]
    ensures forall i :: 0 <= i < |C| && !Written(i, kernel.config.dims, kernel.config.dims.M) ==> out[i] == C[i]
  {
    var d := kernel.config.dims;
    out := Run(kernel, A, B, C);
    forall m, n | 0 <= m < d.M && 0 <= n < d.N
      ensures out[Offset(m, d.LDC, n)] == B[Offset(m, d.LDB, n)]
    {
      DotIdentity(A, B, d, m, n, d.K);
    }
  }
}
