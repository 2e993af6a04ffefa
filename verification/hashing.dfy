/** The seed-combining hash used by the oneDNN hashing utilities, over 64-bit
    `size_t` words. Every hash in the model is built from `Combine`. */
module Hashing {

  type Word = bv64

  const GoldenRatio: Word := 0x9e3779b9

  /** `hash_combine(seed, v)`: seed ^ (hash(v) + 0x9e3779b9 + (seed << 6) + (seed >> 2)). */
  function Combine(seed: Word, h: Word): Word
  {
    seed ^ (h + GoldenRatio + (seed << 6) + (seed >> 2))
  }

  /** `std::hash<bool>`: the integral value of the flag. */
  function OfBool(b: bool): Word
  {
    if b then 1 else 0
  }

  /** `std::hash` of a signed or unsigned integer: its value modulo 2^64. */
  function OfInt(x: int): Word
  {
    (x % 0x1_0000_0000_0000_0000) as Word
  }

  /** A `hash_combine` chain: the values folded into the seed, first to
      last. */
  function Fold(seed: Word, hs: seq<Word>): Word
    decreases |hs|
  {
    if |hs| == 0 then seed else Fold(Combine(seed, hs[0]), hs[1..])
  }

  /** Folding a concatenation folds the second part into the result of the
      first. */
  lemma {:induction false} FoldAppend(seed: Word, a: seq<Word>, b: seq<Word>)
    ensures Fold(seed, a + b) == Fold(Fold(seed, a), b)
    decreases |a|
  {
    if |a| == 0 {
      assert a + b == b;
    } else {
      assert (a + b)[1..] == a[1..] + b;
      FoldAppend(Combine(seed, a[0]), a[1..], b);
    }
  }

  /** Folding one more value is one more `Combine`. */
  lemma FoldSnoc(seed: Word, hs: seq<Word>, h: Word)
    ensures Fold(seed, hs + [h]) == Combine(Fold(seed, hs), h)
  {
    FoldAppend(seed, hs, [h]);
    assert [h][1..] == [];
  }

  /** A fold over three values is three nested `Combine`s. */
  lemma FoldThree(seed: Word, a: Word, b: Word, c: Word)
    ensures Fold(seed, [a, b, c]) == Combine(Combine(Combine(seed, a), b), c)
  {
    FoldSnoc(seed, [], a);
    assert [] + [a] == [a];
    FoldSnoc(seed, [a], b);
    assert [a] + [b] == [a, b];
    FoldSnoc(seed, [a, b], c);
    assert [a, b] + [c] == [a, b, c];
  }

  /** A fold over four values is four nested `Combine`s. */
  lemma FoldFour(seed: Word, a: Word, b: Word, c: Word, d: Word)
    ensures Fold(seed, [a, b, c, d]) == Combine(Combine(Combine(Combine(seed, a), b), c), d)
  {
    FoldThree(seed, a, b, c);
    FoldSnoc(seed, [a, b, c], d);
    assert [a, b, c] + [d] == [a, b, c, d];
  }

  /** A fold over seven values is seven nested `Combine`s. */
  lemma FoldSeven(seed: Word, a: Word, b: Word, c: Word, d: Word, e: Word, f: Word, g: Word)
    ensures Fold(seed, [a, b, c, d, e, f, g]) ==
              Combine(Combine(Combine(Combine(Combine(Combine(Combine(seed, a), b), c), d), e), f), g)
  {
    FoldThree(seed, a, b, c);
    FoldFour(Fold(seed, [a, b, c]), d, e, f, g);
    FoldAppend(seed, [a, b, c], [d, e, f, g]);
    assert [a, b, c] + [d, e, f, g] == [a, b, c, d, e, f, g];
  }

  /** Combining from seed 0 keeps distinct small values distinct. */
  lemma CombineFromZeroInjective(a: Word, b: Word)
    requires a != b
    ensures Combine(0, a) != Combine(0, b)
  {
    assert Combine(0, a) == a + GoldenRatio;
    assert Combine(0, b) == b + GoldenRatio;
  }
}
