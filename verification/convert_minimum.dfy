/** The `ConvertMinimum` graph rewrite: Minimum(a, b) becomes
    Multiply(Maximum(Multiply(a, -1), Multiply(b, -1)), -1), and for signed
    integer types two Selects force the type's minimum whenever an input
    equals it, since negating that minimum wraps back onto itself.
    Element values are integers: signed integer arithmetic wraps to the
    type's width, floating-point values are exact. */
module ConvertMinimum {
  import opened ElementTypes

  /** The dataflow nodes the rewrite reads and builds. `Input(0)` and
      `Input(1)` are the Minimum's source outputs. */
  datatype Node =
    | Input(port: nat)
    | Constant(value: int)
    | Multiply(left: Node, right: Node)
    | Maximum(left: Node, right: Node)
    | Minimum(left: Node, right: Node)
    | Equal(left: Node, right: Node)
    | Select(cond: Node, onTrue: Node, onFalse: Node)

  /** `make_tensor_of_min_value` for a signed integer type. */
  function MinValue(t: ElementType): int
    requires IsSignedInteger(t)
  {
    -(HalfRange(t) as int)
  }

  function MaxValue(t: ElementType): int
    requires IsSignedInteger(t)
  {
    HalfRange(t) - 1
  }

  /** A value of type `t`. */
  predicate InRange(t: ElementType, v: int)
  {
    IsSignedInteger(t) ==> MinValue(t) <= v <= MaxValue(t)
  }

  /** Reduction of an exact result to type `t`: two's-complement wrap-around
      for signed integers, the exact value otherwise. */
  function Wrap(t: ElementType, v: int): (r: int)
    ensures InRange(t, r)
    ensures InRange(t, v) ==> r == v
  {
    if IsSignedInteger(t) then WrapTo(HalfRange(t), v) else v
  }

  /** `v` brought into [-h, h) by whole periods of 2h. */
  function WrapTo(h: int, v: int): (r: int)
    requires h > 0
    ensures -h <= r < h
    ensures -h <= v < h ==> r == v
    decreases if v < 0 then -v else v + 1
  {
    if v >= h then WrapTo(h, v - 2 * h)
    else if v < -h then WrapTo(h, v + 2 * h)
    else v
  }

  /** How many periods of 2h wrapping adds: the wrapped value is congruent
      to `v` modulo 2h. */
  function WrapPeriods(h: int, v: int): (k: int)
    requires h > 0
    ensures WrapTo(h, v) == v + k * (2 * h)
    decreases if v < 0 then -v else v + 1
  {
    if v >= h then
      var k := WrapPeriods(h, v - 2 * h);
      PeriodStep(k, 2 * h);
      k - 1
    else if v < -h then
      var k := WrapPeriods(h, v + 2 * h);
      PeriodStep(k, 2 * h);
      k + 1
    else 0
  }

  /** One period more or less. */
  lemma PeriodStep(k: int, m: int)
    ensures (k - 1) * m == k * m - m && (k + 1) * m == k * m + m
  {
  }

  /** `std::max` and `std::min` as the reference kernels compute them. */
  function Larger(u: int, v: int): int
  {
    if u < v then v else u
  }

  function Smaller(u: int, v: int): int
  {
    if u < v then u else v
  }

  /** Every constant of the dataflow is a value of type `t`. */
  predicate ConstantsInRange(n: Node, t: ElementType)
  {
    match n
    case Input(_) => true
    case Constant(v) => InRange(t, v)
    case Multiply(x, y) => ConstantsInRange(x, t) && ConstantsInRange(y, t)
    case Maximum(x, y) => ConstantsInRange(x, t) && ConstantsInRange(y, t)
    case Minimum(x, y) => ConstantsInRange(x, t) && ConstantsInRange(y, t)
    case Equal(x, y) => ConstantsInRange(x, t) && ConstantsInRange(y, t)
    case Select(c, x, y) => ConstantsInRange(c, t) && ConstantsInRange(x, t) && ConstantsInRange(y, t)
  }

  /** Evaluation of a dataflow of element type `t` on inputs `a`, `b`;
      a boolean (the result of Equal) is 1 or 0. A dataflow whose constants
      and inputs are values of the type computes a value of the type. */
  function Eval(n: Node, t: ElementType, a: int, b: int): (r: int)
    ensures InRange(t, a) && InRange(t, b) && ConstantsInRange(n, t) ==> InRange(t, r)
  {
    match n
    case Input(port) => if port == 0 then a else b
    case Constant(v) => v
    case Multiply(x, y) => Wrap(t, Eval(x, t, a, b) * Eval(y, t, a, b))
    case Maximum(x, y) => Larger(Eval(x, t, a, b), Eval(y, t, a, b))
    case Minimum(x, y) => Smaller(Eval(x, t, a, b), Eval(y, t, a, b))
    case Equal(x, y) => if Eval(x, t, a, b) == Eval(y, t, a, b) then 1 else 0
    case Select(c, x, y) => if Eval(c, t, a, b) != 0 then Eval(x, t, a, b) else Eval(y, t, a, b)
  }

  /** `Multiply(x, Constant(-1))`. */
  function Negate(x: Node): Node
  {
    Multiply(x, Constant(-1))
  }

  /** `neg_2`: the negated maximum of the negated inputs. The only constant
      it adds is -1, a value of every element type. */
  function NegatedMax(x: Node, y: Node): (r: Node)
    ensures forall t :: ConstantsInRange(r, t) <==> ConstantsInRange(x, t) && ConstantsInRange(y, t)
  {
    NegatedMaxNodeConstants(x, y);
    Negate(Maximum(Negate(x), Negate(y)))
  }

  /** `select_1`: the minimum-value guards around `neg_2`. The only constant
      it adds besides those of `neg_2` is the type's minimum, itself a value
      of the type. */
  function GuardedNegatedMax(x: Node, y: Node, t: ElementType): (r: Node)
    requires IsSignedInteger(t)
    ensures ConstantsInRange(r, t) <==> ConstantsInRange(x, t) && ConstantsInRange(y, t)
  {
    RewriteConstantsInRange(t);
    var minConstant := Constant(MinValue(t));
    var select0 := Select(Equal(x, minConstant), minConstant, NegatedMax(x, y));
    assert ConstantsInRange(minConstant, t);
    assert ConstantsInRange(Equal(x, minConstant), t) <==> ConstantsInRange(x, t);
    assert ConstantsInRange(Equal(y, minConstant), t) <==> ConstantsInRange(y, t);
    Select(Equal(y, minConstant), minConstant, select0)
  }

  /** The constants -1 and the type's minimum are values of the type. */
  lemma RewriteConstantsInRange(t: ElementType)
    ensures InRange(t, -1)
    ensures IsSignedInteger(t) ==> InRange(t, MinValue(t))
  {
  }

  /** The node `NegatedMax` builds adds no constant out of range. */
  lemma NegatedMaxNodeConstants(x: Node, y: Node)
    ensures forall t :: ConstantsInRange(Negate(Maximum(Negate(x), Negate(y))), t)
                        <==> ConstantsInRange(x, t) && ConstantsInRange(y, t)
  {
    forall t
      ensures ConstantsInRange(Negate(Maximum(Negate(x), Negate(y))), t)
              <==> ConstantsInRange(x, t) && ConstantsInRange(y, t)
    {
      RewriteConstantsInRange(t);
      assert ConstantsInRange(Negate(x), t) <==> ConstantsInRange(x, t);
      assert ConstantsInRange(Negate(y), t) <==> ConstantsInRange(y, t);
    }
  }

  /** `ov::replace_node`: consumers of `target` are reconnected to
      `replacement`; `consumed` is what the downstream consumer reads. */
  function ReplaceNode(consumed: Node, target: Node, replacement: Node): Node
  {
    if consumed == target then replacement else consumed
  }

  /** The callback's answer and the node the Minimum's consumer reads after it. */
  datatype Rewrite = Rewrite(applied: bool, consumed: Node)

  /** The matcher callback on root `root` of output type `t`; `vetoed` is the
      user transformation callback's answer. */
  function Callback(root: Node, t: ElementType, vetoed: bool): (r: Rewrite)
    ensures r.applied <==> root.Minimum? && !vetoed && IsSigned(t)
    ensures !r.applied ==> r.consumed == root
    ensures r.applied && IsSignedInteger(t) ==> r.consumed == GuardedNegatedMax(root.left, root.right, t)
    ensures r.applied && !IsSignedInteger(t) ==> r.consumed == NegatedMax(root.left, root.right)
  {
    if !root.Minimum? || vetoed || !IsSigned(t) then Rewrite(false, root)
    else
      var neg2 := NegatedMax(root.left, root.right);
      var consumed := if IsSigned(t) && IsIntegralNumber(t)
                      then ReplaceNode(root, root, GuardedNegatedMax(root.left, root.right, t))
                      else root;
      SignedIntegralTypes(t);
      Rewrite(true, ReplaceNode(consumed, root, neg2))
  }

  /** For signed integers the second `replace_node` finds no consumer left:
      the guarded dataflow stays connected. */
  lemma SecondReplaceIsNoOp(root: Node, t: ElementType)
    requires root.Minimum? && IsSignedInteger(t)
    ensures ReplaceNode(GuardedNegatedMax(root.left, root.right, t), root, NegatedMax(root.left, root.right))
            == GuardedNegatedMax(root.left, root.right, t)
  {
  }

  /** Multiplying by the constant -1 negates, then wraps. */
  lemma EvalNegate(x: Node, t: ElementType, a: int, b: int)
    ensures Eval(Negate(x), t, a, b) == Wrap(t, -Eval(x, t, a, b))
  {
    assert Eval(Constant(-1), t, a, b) == -1;
  }

  /** The negated maximum evaluates to the wrapped negation of the larger
      wrapped negation. */
  lemma EvalNegatedMax(x: Node, y: Node, t: ElementType, a: int, b: int)
    ensures Eval(NegatedMax(x, y), t, a, b)
            == Wrap(t, -Larger(Wrap(t, -Eval(x, t, a, b)), Wrap(t, -Eval(y, t, a, b))))
  {
    var m := Maximum(Negate(x), Negate(y));
    assert NegatedMax(x, y) == Negate(m);
    EvalNegate(m, t, a, b);
    assert Eval(m, t, a, b) == Larger(Eval(Negate(x), t, a, b), Eval(Negate(y), t, a, b));
    EvalNegate(x, t, a, b);
    EvalNegate(y, t, a, b);
  }

  /** One guard: `Select(Equal(x, c), c, y)` is `c` when `x` equals it and
      `y` otherwise. */
  lemma EvalGuard(x: Node, c: int, y: Node, t: ElementType, a: int, b: int)
    ensures Eval(Select(Equal(x, Constant(c)), Constant(c), y), t, a, b)
            == if Eval(x, t, a, b) == c then c else Eval(y, t, a, b)
  {
    assert Eval(Constant(c), t, a, b) == c;
    assert Eval(Equal(x, Constant(c)), t, a, b) == if Eval(x, t, a, b) == c then 1 else 0;
  }

  /** The guards pick the minimum value when either input equals it and the
      negated maximum otherwise. */
  lemma EvalGuarded(t: ElementType, a: int, b: int)
    requires IsSignedInteger(t)
    ensures Eval(GuardedNegatedMax(Input(0), Input(1), t), t, a, b) ==
            if b == MinValue(t) || a == MinValue(t) then MinValue(t)
            else Eval(NegatedMax(Input(0), Input(1)), t, a, b)
  {
    var m := MinValue(t);
    var select0 := Select(Equal(Input(0), Constant(m)), Constant(m), NegatedMax(Input(0), Input(1)));
    EvalGuard(Input(0), m, NegatedMax(Input(0), Input(1)), t, a, b);
    EvalGuard(Input(1), m, select0, t, a, b);
  }

  /** When both negations are representable, the negated maximum of the
      negated inputs is the minimum. */
  lemma NegatedMaxIsMinimum(t: ElementType, a: int, b: int)
    requires InRange(t, a) && InRange(t, b) && InRange(t, -a) && InRange(t, -b)
    ensures Eval(NegatedMax(Input(0), Input(1)), t, a, b) == Eval(Minimum(Input(0), Input(1)), t, a, b)
  {
    assert Eval(Input(0), t, a, b) == a && Eval(Input(1), t, a, b) == b;
    NegatedMaxIsSmaller(Input(0), Input(1), t, a, b);
    assert Eval(Minimum(Input(0), Input(1)), t, a, b) == Smaller(a, b);
  }

  /** The negated maximum of any two dataflows evaluates to the smaller of
      their values when neither negation wraps. */
  lemma NegatedMaxIsSmaller(x: Node, y: Node, t: ElementType, a: int, b: int)
    requires InRange(t, Eval(x, t, a, b)) && InRange(t, Eval(y, t, a, b))
    requires InRange(t, -Eval(x, t, a, b)) && InRange(t, -Eval(y, t, a, b))
    ensures Eval(NegatedMax(x, y), t, a, b) == Smaller(Eval(x, t, a, b), Eval(y, t, a, b))
  {
    var u, v := Eval(x, t, a, b), Eval(y, t, a, b);
    var m := Maximum(Negate(x), Negate(y));
    EvalNegate(x, t, a, b);
    EvalNegate(y, t, a, b);
    assert Eval(m, t, a, b) == Larger(-u, -v);
    EvalNegate(m, t, a, b);
    assert NegatedMax(x, y) == Negate(m);
    assert -Larger(-u, -v) == Smaller(u, v);
  }

  /** The arithmetic behind it: -max(-a, -b) == min(a, b) when no negation wraps. */
  lemma NegatedLargerOfNegated(t: ElementType, a: int, b: int)
    requires InRange(t, a) && InRange(t, b) && InRange(t, -a) && InRange(t, -b)
    ensures Wrap(t, -Larger(Wrap(t, -a), Wrap(t, -b))) == Smaller(a, b)
  {
    assert Wrap(t, -a) == -a && Wrap(t, -b) == -b;
    assert InRange(t, -Larger(-a, -b));
  }

  /** Negating the minimum of a signed integer type gives it back. */
  lemma NegatingMinWraps(t: ElementType)
    requires IsSignedInteger(t)
    ensures Wrap(t, -MinValue(t)) == MinValue(t)
  {
    var h: int := HalfRange(t);
    assert WrapTo(h, h - 2 * h) == -h;
  }

  /** Without the guards the rewrite is wrong at the minimum value:
      min(MIN, 0) is MIN but the negated maximum gives 0. */
  lemma UnguardedRewriteFailsAtMin(t: ElementType, m: int)
    requires IsSignedInteger(t) && m == MinValue(t)
    ensures Eval(NegatedMax(Input(0), Input(1)), t, m, 0) == 0
    ensures Eval(Minimum(Input(0), Input(1)), t, m, 0) == m != 0
  {
    EvalNegatedMax(Input(0), Input(1), t, m, 0);
    NegatingMinWraps(t);
    assert Wrap(t, 0) == 0 by { assert InRange(t, 0); }
    assert Larger(m, 0) == 0;
  }

  /** The guarded dataflow is the minimum on every pair of values of a
      signed integer type. */
  lemma GuardedIsMinimum(t: ElementType, a: int, b: int)
    requires IsSignedInteger(t) && InRange(t, a) && InRange(t, b)
    ensures Eval(GuardedNegatedMax(Input(0), Input(1), t), t, a, b) == Eval(Minimum(Input(0), Input(1)), t, a, b)
  {
    EvalGuarded(t, a, b);
    if a != MinValue(t) && b != MinValue(t) {
      NegatedMaxIsMinimum(t, a, b);
    }
  }

  /** The rewrite preserves the Minimum's value: on every pair of values of a
      signed integer type, and on all values of a floating type. */
  lemma CallbackPreservesValue(t: ElementType, vetoed: bool, a: int, b: int)
    requires IsSigned(t) && t != Boolean
    requires InRange(t, a) && InRange(t, b)
    ensures var root := Minimum(Input(0), Input(1));
            Eval(Callback(root, t, vetoed).consumed, t, a, b) == Eval(root, t, a, b)
  {
    var root := Minimum(Input(0), Input(1));
    var r := Callback(root, t, vetoed);
    if vetoed {
      assert r.consumed == root;
    } else if IsSignedInteger(t) {
      assert r.consumed == GuardedNegatedMax(Input(0), Input(1), t);
      GuardedIsMinimum(t, a, b);
    } else {
      assert r.consumed == NegatedMax(Input(0), Input(1));
      NegatedMaxIsMinimum(t, a, b);
    }
  }
}
