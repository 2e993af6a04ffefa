/** Adaptive pooling bins: output position `idx` of an axis of length
    `outLen` pools the input range [floor(idx*in/out), ceil((idx+1)*in/out)).
    The source computes the end with a float `ceil`; here it is exact
    integer ceiling division. */
module PoolingBins {
  import opened Common

  /** The half-open input range [start, end) one output position pools. */
  datatype Bin = Bin(start: nat, end: nat)

  /** `setBinBorders`. */
  function BinBorders(idx: nat, inLen: nat, outLen: nat): (b: Bin)
    requires outLen > 0
    ensures b.start * outLen <= idx * inLen < (b.start + 1) * outLen
    ensures (idx + 1) * inLen <= b.end * outLen
    ensures b.end == 0 || (b.end - 1) * outLen < (idx + 1) * inLen
  {
    var lo, hi := idx * inLen, (idx + 1) * inLen;
    FloorDivBounds(lo, outLen);
    CeilDivBounds(hi, outLen);
    Bin(FloorDiv(lo, outLen), CeilDiv(hi, outLen))
  }

  /** Integer division rounding down (`floor` of the float quotient). */
  function FloorDiv(x: nat, q: nat): nat
    requires q > 0
  {
    x / q
  }

  /** Integer division rounding up (`ceil` of the float quotient, `div_up`). */
  function CeilDiv(x: nat, q: nat): nat
    requires q > 0
  {
    (x + q - 1) / q
  }

  lemma FloorDivBounds(x: nat, q: nat)
    requires q > 0
    ensures FloorDiv(x, q) * q <= x < (FloorDiv(x, q) + 1) * q
  {
  }

  /** Ceiling division rounds up by less than one divisor. */
  lemma CeilDivBounds(x: nat, q: nat)
    requires q > 0
    ensures x <= CeilDiv(x, q) * q
    ensures CeilDiv(x, q) == 0 || (CeilDiv(x, q) - 1) * q < x
  {
    var e := CeilDiv(x, q);
    FloorDivBounds(x + q - 1, q);
    assert (e - 1) * q == e * q - q;
  }

  /** Every bin of a non-empty axis is a non-empty range inside the input. */
  lemma {:induction false} BinInsideInput(idx: nat, inLen: nat, outLen: nat)
    requires inLen >= 1 && outLen >= 1 && idx < outLen
    ensures var b := BinBorders(idx, inLen, outLen);
            0 <= b.start < b.end <= inLen
  {
    var b := BinBorders(idx, inLen, outLen);
    assert idx * inLen < (idx + 1) * inLen;
    assert b.start * outLen < b.end * outLen;
    MulLtCancel(b.start, b.end, outLen);
    MulMonotone(idx + 1, outLen, inLen);
    assert (b.end - 1) * outLen < inLen * outLen;
    MulLtCancel(b.end - 1, inLen, outLen);
  }

  /** The first bin starts at the beginning of the axis and the last one ends
      at its end. */
  lemma {:induction false} BinsSpanAxis(inLen: nat, outLen: nat)
    requires outLen >= 1
    ensures BinBorders(0, inLen, outLen).start == 0
    ensures BinBorders(outLen - 1, inLen, outLen).end == inLen
  {
    var b := BinBorders(outLen - 1, inLen, outLen);
    assert (outLen - 1 + 1) * inLen == inLen * outLen;
    MulLeCancel(inLen, b.end, outLen);
    if b.end > inLen {
      assert (b.end - 1) * outLen < inLen * outLen;
      MulLtCancel(b.end - 1, inLen, outLen);
    }
  }

  /** Consecutive bins leave no gap: each ends at or after the next one starts. */
  lemma {:induction false} BinsLeaveNoGap(idx: nat, inLen: nat, outLen: nat)
    requires outLen >= 1 && idx + 1 < outLen
    ensures BinBorders(idx, inLen, outLen).end >= BinBorders(idx + 1, inLen, outLen).start
  {
    var b := BinBorders(idx, inLen, outLen);
    var c := BinBorders(idx + 1, inLen, outLen);
    assert c.start * outLen <= (idx + 1) * inLen <= b.end * outLen;
    MulLeCancel(c.start, b.end, outLen);
  }

  /** The output position whose bin holds input position `p`. */
  function OwningBin(p: nat, inLen: nat, outLen: nat): (idx: nat)
    requires outLen >= 1 && p < inLen
    ensures idx < outLen
    ensures idx * inLen <= p * outLen < (idx + 1) * inLen
  {
    var idx := FloorDiv(p * outLen, inLen);
    FloorDivBounds(p * outLen, inLen);
    MulMonotone(p + 1, inLen, outLen);
    assert idx * inLen < outLen * inLen;
    MulLtCancel(idx, outLen, inLen);
    idx
  }

  /** Every input position is pooled by some output position: the one
      `OwningBin` names. */
  lemma {:induction false} BinsCoverInput(p: nat, inLen: nat, outLen: nat)
    requires outLen >= 1 && p < inLen
    ensures var b := BinBorders(OwningBin(p, inLen, outLen), inLen, outLen);
            b.start <= p < b.end
  {
    var idx := OwningBin(p, inLen, outLen);
    var b := BinBorders(idx, inLen, outLen);
    assert b.start * outLen <= p * outLen;
    MulLeCancel(b.start, p, outLen);
    assert p * outLen < b.end * outLen;
    MulLtCancel(p, b.end, outLen);
  }
}
