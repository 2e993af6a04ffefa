/** `poolMax` of the adaptive pooling node: the maximum over one output
    position's bin and the flat input index of its first occurrence, plus the
    placement of that index in the index output. Values are integers standing
    in for f32. */
module AdaptivePoolMax {
  import opened Common
  import opened PoolingBins
  import opened AdaptivePooling

  /** `inStrides[2..4]`: element strides of the depth, height and width axes
      (0 for an axis the data does not have). */
  datatype Strides = Strides(d: nat, h: nat, w: nat)

  /** The three bins pooled by output position (od, oh, ow). */
  datatype Window = Window(d: Bin, h: Bin, w: Bin)

  function WindowOf(e: Extents, od: nat, oh: nat, ow: nat): Window
    requires e.OD >= 1 && e.OH >= 1 && e.OW >= 1
  {
    Window(BinBorders(od, e.ID, e.OD as nat), BinBorders(oh, e.IH, e.OH as nat), BinBorders(ow, e.IW, e.OW as nat))
  }

  predicate InWindow(win: Window, d: nat, h: nat, w: nat)
  {
    win.d.start <= d < win.d.end && win.h.start <= h < win.h.end && win.w.start <= w < win.w.end
  }

  /** Element offset of input position (d, h, w) from the channel's base. */
  function Addr(base: nat, st: Strides, d: nat, h: nat, w: nat): nat
  {
    base + d * st.d + h * st.h + w * st.w
  }

  /** Every position of the window lies inside the source buffer. */
  ghost predicate Readable(src: seq<int>, base: nat, st: Strides, win: Window)
  {
    forall d, h, w :: InWindow(win, d, h, w) ==> Addr(base, st, d, h, w) < |src|
  }

  /** Row-major scan order of the three loops. */
  predicate Before(d: nat, h: nat, w: nat, d': nat, h': nat, w': nat)
  {
    d < d' || (d == d' && (h < h' || (h == h' && w < w')))
  }

  /** The flat index `d*IH*IW + h*IW + w` reported for input position (d, h, w). */
  function FlatIndex(e: Extents, d: nat, h: nat, w: nat): nat
  {
    d * (e.IH * e.IW) + h * e.IW + w
  }

  /** `poolMax` for one output position and one channel whose data starts at
      `base`: the result is the largest value of the window, the ghost
      position (bd, bh, bw) holds it, no earlier position in scan order does,
      and the reported index is that position's flat index. */
  method PoolMax(src: seq<int>, base: nat, st: Strides, e: Extents, od: nat, oh: nat, ow: nat)
    returns (res: int, resIndex: nat, ghost bd: nat, ghost bh: nat, ghost bw: nat)
    requires e.ID >= 1 && e.IH >= 1 && e.IW >= 1
    requires od < e.OD && oh < e.OH && ow < e.OW
    requires Readable(src, base, st, WindowOf(e, od, oh, ow))
    ensures InWindow(WindowOf(e, od, oh, ow), bd, bh, bw)
    ensures res == src[Addr(base, st, bd, bh, bw)]
    ensures resIndex == FlatIndex(e, bd, bh, bw)
    ensures forall d, h, w :: InWindow(WindowOf(e, od, oh, ow), d, h, w) ==>
              src[Addr(base, st, d, h, w)] <= res
    ensures forall d, h, w :: InWindow(WindowOf(e, od, oh, ow), d, h, w) && Before(d, h, w, bd, bh, bw) ==>
              src[Addr(base, st, d, h, w)] < res
  {
    var win := WindowOf(e, od, oh, ow);
    BinInsideInput(od, e.ID, e.OD as nat);
    BinInsideInput(oh, e.IH, e.OH as nat);
    BinInsideInput(ow, e.IW, e.OW as nat);
    var dS, dE := win.d.start, win.d.end;
    var hS, hE := win.h.start, win.h.end;
    var wS, wE := win.w.start, win.w.end;
    assert InWindow(win, dS, hS, wS);
    res := src[Addr(base, st, dS, hS, wS)];
    resIndex := FlatIndex(e, dS, hS, wS);
    bd, bh, bw := dS, hS, wS;
    var pd := dS;
    while pd < dE
      invariant dS <= pd <= dE
      invariant InWindow(win, bd, bh, bw) && res == src[Addr(base, st, bd, bh, bw)]
      invariant resIndex == FlatIndex(e, bd, bh, bw)
      invariant forall d, h, w :: InWindow(win, d, h, w) && Before(d, h, w, pd, hS, wS) ==>
                  src[Addr(base, st, d, h, w)] <= res
      invariant forall d, h, w :: InWindow(win, d, h, w) && Before(d, h, w, bd, bh, bw) ==>
                  src[Addr(base, st, d, h, w)] < res
    {
      var ph := hS;
      while ph < hE
        invariant hS <= ph <= hE
        invariant InWindow(win, bd, bh, bw) && res == src[Addr(base, st, bd, bh, bw)]
        invariant resIndex == FlatIndex(e, bd, bh, bw)
        invariant forall d, h, w :: InWindow(win, d, h, w) && Before(d, h, w, pd, ph, wS) ==>
                    src[Addr(base, st, d, h, w)] <= res
        invariant forall d, h, w :: InWindow(win, d, h, w) && Before(d, h, w, bd, bh, bw) ==>
                    src[Addr(base, st, d, h, w)] < res
      {
        var pw := wS;
        while pw < wE
          invariant wS <= pw <= wE
          invariant InWindow(win, bd, bh, bw) && res == src[Addr(base, st, bd, bh, bw)]
          invariant resIndex == FlatIndex(e, bd, bh, bw)
          invariant forall d, h, w :: InWindow(win, d, h, w) && Before(d, h, w, pd, ph, pw) ==>
                      src[Addr(base, st, d, h, w)] <= res
          invariant forall d, h, w :: InWindow(win, d, h, w) && Before(d, h, w, bd, bh, bw) ==>
                      src[Addr(base, st, d, h, w)] < res
        {
          assert InWindow(win, pd, ph, pw);
          var curr := src[Addr(base, st, pd, ph, pw)];
          if res < curr {
            resIndex := FlatIndex(e, pd, ph, pw);
            bd, bh, bw := pd, ph, pw;
          }
          res := if res < curr then curr else res;
          pw := pw + 1;
        }
        ph := ph + 1;
      }
      pd := pd + 1;
    }
  }

  /** `indexDst[spatIndOff*oDHW + od*oHW + oh*OW + ow]`: where the index of
      output position (od, oh, ow) of plane `spatIndOff = n*C + c` goes. */
  function IndexSlot(OD: nat, OH: nat, OW: nat, spatIndOff: nat, od: nat, oh: nat, ow: nat): (r: nat)
    ensures od < OD && oh < OH && ow < OW ==>
              spatIndOff * (OD * OH * OW) <= r < (spatIndOff + 1) * (OD * OH * OW)
  {
    var plane, row := OD * OH * OW, OH * OW;
    PlaneBounds(OD, OH, OW, spatIndOff, od, oh, ow);
    var slot := spatIndOff * plane + od * row + oh * OW + ow;
    slot
  }

  /** An in-range output position stays inside its plane's block of
      OD*OH*OW index slots. */
  lemma PlaneBounds(OD: nat, OH: nat, OW: nat, s: nat, od: nat, oh: nat, ow: nat)
    ensures 0 <= s * (OD * OH * OW) && 0 <= od * (OH * OW) && 0 <= oh * OW
    ensures var r := s * (OD * OH * OW) + od * (OH * OW) + oh * OW + ow;
            od < OD && oh < OH && ow < OW ==> r < (s + 1) * (OD * OH * OW)
  {
    MulMonotone(0, s, OD * OH * OW);
    MulMonotone(0, od, OH * OW);
    MulMonotone(0, oh, OW);
    if od < OD && oh < OH && ow < OW {
      PlaneStep(OD, OH, OW, s, od, oh, ow);
    }
  }

  lemma PlaneStep(OD: nat, OH: nat, OW: nat, s: nat, od: nat, oh: nat, ow: nat)
    requires od < OD && oh < OH && ow < OW
    ensures s * (OD * OH * OW) + od * (OH * OW) + oh * OW + ow < (s + 1) * (OD * OH * OW)
  {
    MulMonotone(oh + 1, OH, OW);
    assert oh * OW + ow < (oh + 1) * OW;
    MulMonotone(od + 1, OD, OH * OW);
    assert (od + 1) * (OH * OW) == od * (OH * OW) + OH * OW;
    assert OD * (OH * OW) == OD * OH * OW;
    assert (s + 1) * (OD * OH * OW) == s * (OD * OH * OW) + OD * OH * OW;
  }

  /** One mixed-radix step: `hi` followed by digit `lo` in base `base`. */
  function Radix(hi: nat, base: nat, lo: nat): nat
  {
    hi * base + lo
  }

  /** Mixed-radix digits are unique. */
  lemma RadixUnique(a: nat, b: nat, a': nat, b': nat, base: nat)
    requires b < base && b' < base
    requires Radix(a, base, b) == Radix(a', base, b')
    ensures a == a' && b == b'
  {
    if a < a' {
      MulMonotone(a + 1, a', base);
    } else if a' < a {
      MulMonotone(a' + 1, a, base);
    }
  }

  /** The slot in Horner form. */
  lemma IndexSlotHorner(OD: nat, OH: nat, OW: nat, s: nat, od: nat, oh: nat, ow: nat)
    ensures IndexSlot(OD, OH, OW, s, od, oh, ow) == Radix(Radix(Radix(s, OD, od), OH, oh), OW, ow)
  {
    var x := s * OD + od;
    assert x * OH == s * OD * OH + od * OH;
    assert (x * OH + oh) * OW == x * OH * OW + oh * OW;
    assert x * OH * OW == (s * OD * OH + od * OH) * OW;
    assert (s * OD * OH + od * OH) * OW == s * (OD * OH * OW) + od * (OH * OW);
  }

  /** Distinct (plane, od, oh, ow) tuples write distinct index slots, so the
      parallel loop never writes one index twice. */
  lemma IndexSlotsDistinct(OD: nat, OH: nat, OW: nat,
                           s: nat, od: nat, oh: nat, ow: nat,
                           s': nat, od': nat, oh': nat, ow': nat)
    requires od < OD && oh < OH && ow < OW
    requires od' < OD && oh' < OH && ow' < OW
    requires IndexSlot(OD, OH, OW, s, od, oh, ow) == IndexSlot(OD, OH, OW, s', od', oh', ow')
    ensures s == s' && od == od' && oh == oh' && ow == ow'
  {
    IndexSlotHorner(OD, OH, OW, s, od, oh, ow);
    IndexSlotHorner(OD, OH, OW, s', od', oh', ow');
    var x, x' := Radix(s, OD, od), Radix(s', OD, od');
    var y, y' := Radix(x, OH, oh), Radix(x', OH, oh');
    RadixUnique(y, ow, y', ow', OW);
    RadixUnique(x, oh, x', oh', OH);
    RadixUnique(s, od, s', od', OD);
  }
}
