/** One generation number per position, kept as two bits in two 64-bit words. */
module BitPlanes {
  type word = bv64
  type bit = bv6

  predicate Bit(x: word, b: bit) { (x >> b) & 1 == 1 }

  function One(b: bit): word { (1 as word) << b }

  const ONES: word := 0xFFFF_FFFF_FFFF_FFFF

  /** The generation number held at a bit position of a pair of words. */
  function Generation(lo: word, hi: word, b: bit): (g: nat)
    ensures g <= 3
  {
    (if Bit(lo, b) then 1 else 0) + (if Bit(hi, b) then 2 else 0)
  }

  predicate Hot(h: word) { h != 0 && h & (h - 1) == 0 }

  // ----- bits through masks

  lemma BitToMask(x: word, b: bit)
    ensures (x >> b) & 1 == 1 ==> x & ((1 as word) << b) != 0
  {}

  lemma MaskToBit(x: word, b: bit)
    ensures x & ((1 as word) << b) != 0 ==> (x >> b) & 1 == 1
  {}

  /** Some bit of the mask is set. */
  predicate On(x: word, h: word) { x & h != 0 }

  lemma BitIsOn(x: word, b: bit)
    ensures Bit(x, b) <==> On(x, One(b))
  {
    BitToMask(x, b);
    MaskToBit(x, b);
  }

  lemma OneIsHot(b: bit)
    ensures Hot(One(b))
  {}

  predicate Apart(h: word, k: word) { h & k == 0 }

  lemma OnesApart(b: bit, c: bit)
    requires b != c
    ensures Apart(One(b), One(c))
  {}

  // ----- writing a generation number

  function Clear(x: word, h: word): word { x & !h }
  function Fill(x: word, h: word): word { (x & !h) | h }

  lemma WriteHere(x: word, h: word)
    requires Hot(h)
    ensures On(Fill(x, h), h) && !On(Clear(x, h), h)
  {}

  lemma WriteElsewhere(x: word, h: word, k: word)
    requires Apart(h, k)
    ensures On(Fill(x, h), k) == On(x, k)
    ensures On(Clear(x, h), k) == On(x, k)
  {
    MaskedElsewhere(x, h, k);
  }

  lemma MaskedElsewhere(x: word, h: word, k: word)
    requires h & k == 0
    ensures ((x & !h) | h) & k == x & k
    ensures (x & !h) & k == x & k
  {}

  function Either(x: word, y: word): word { x | y }

  function AtBit(v: word, b: bit): word { v << b }

  /** Clear a bit and put v there. */
  function Put(x: word, b: bit, v: word): word { Either(Clear(x, One(b)), AtBit(v, b)) }

  lemma PutOne(x: word, b: bit)
    ensures Put(x, b, 1) == Fill(x, One(b))
  {}

  lemma PutZero(x: word, b: bit)
    ensures Put(x, b, 0) == Clear(x, One(b))
  {
    hide Clear, One, Either, AtBit;
    ZeroAtBit(b);
    EitherZero(Clear(x, One(b)));
  }

  lemma ZeroAtBit(b: bit)
    ensures AtBit(0, b) == 0
  {}

  lemma EitherZero(x: word)
    ensures Either(x, 0) == x
  {}

  lemma PutBit(x: word, b: bit, v: word, c: bit)
    requires v == 0 || v == 1
    ensures Bit(Put(x, b, v), c) == if b == c then v == 1 else Bit(x, c)
  {
    hide One, Bit, Put, On, Fill, Clear, Hot, Apart;
    PutOne(x, b);
    PutZero(x, b);
    BitIsOn(Put(x, b, v), c);
    BitIsOn(x, c);
    OneIsHot(c);
    if b == c {
      WriteHere(x, One(b));
    } else {
      OnesApart(b, c);
      WriteElsewhere(x, One(b), One(c));
    }
  }

  function LowBit(g: nat): word { if g % 2 == 1 then 1 else 0 }
  function HighBit(g: nat): word { if g / 2 == 1 then 1 else 0 }

  lemma PutGeneration(lo: word, hi: word, b: bit, g: nat, c: bit)
    requires g <= 3
    ensures Generation(Put(lo, b, LowBit(g)), Put(hi, b, HighBit(g)), c) == if b == c then g else Generation(lo, hi, c)
  {
    hide Put, Bit;
    PutBit(lo, b, LowBit(g), c);
    PutBit(hi, b, HighBit(g), c);
  }

  // ----- wiping a generation

  /** Zero exactly at the bits where both words match the masks. */
  function Mask(lo: word, hi: word, m1: word, m2: word): word { Either(Flip(lo, m1), Flip(hi, m2)) }

  function Both(x: word, mask: word): word { x & mask }

  function Spread(v: word): word { 0 - v }

  lemma MaskAt(lo: word, hi: word, m1: word, m2: word, h: word)
    requires Hot(h) && (m1 == 0 || m1 == ONES) && (m2 == 0 || m2 == ONES)
    ensures !On(Mask(lo, hi, m1, m2), h) <==> On(lo, h) == (m1 == ONES) && On(hi, h) == (m2 == ONES)
  {
    hide On, Either, Flip, Hot;
    EitherOn(Flip(lo, m1), Flip(hi, m2), h);
    FlipNone(lo);
    FlipNone(hi);
    FlipAll(lo, h);
    FlipAll(hi, h);
  }

  function Flip(x: word, m: word): word { x ^ m }

  lemma EitherOn(x: word, y: word, h: word)
    ensures On(Either(x, y), h) <==> On(x, h) || On(y, h)
  {
    hide On, Either;
    if On(x, h) { FirstOn(x, y, h); } else if On(y, h) { SecondOn(x, y, h); } else { NeitherOn(x, y, h); }
  }

  lemma FirstOn(x: word, y: word, h: word)
    requires On(x, h)
    ensures On(Either(x, y), h)
  {}

  lemma SecondOn(x: word, y: word, h: word)
    requires On(y, h)
    ensures On(Either(x, y), h)
  {}

  lemma NeitherOn(x: word, y: word, h: word)
    requires !On(x, h) && !On(y, h)
    ensures !On(Either(x, y), h)
  {}

  lemma FlipNone(x: word)
    ensures Flip(x, 0) == x
  {}

  lemma FlipAll(x: word, h: word)
    requires Hot(h)
    ensures On(Flip(x, ONES), h) <==> !On(x, h)
  {
    HotSplits(x, h);
    if On(x, h) { FlippedOff(x, h); } else { FlippedOn(x, h); }
  }

  lemma FlippedOn(x: word, h: word)
    requires !On(x, h) && h != 0
    ensures On(Flip(x, ONES), h)
  {}

  lemma FlippedOff(x: word, h: word)
    requires x & h == h
    ensures !On(Flip(x, ONES), h)
  {}

  lemma HotSplits(x: word, h: word)
    requires h != 0 && h & (h - 1) == 0
    ensures x & h == 0 || x & h == h
  {}

  lemma BothAt(x: word, mask: word, h: word)
    requires Hot(h)
    ensures On(Both(x, mask), h) <==> On(x, h) && On(mask, h)
  {
    HotSplits(x, h);
    HotSplits(mask, h);
    MaskedBoth(x, mask, h);
  }

  lemma MaskedBoth(x: word, mask: word, h: word)
    requires (x & h == 0 || x & h == h) && (mask & h == 0 || mask & h == h) && h != 0
    ensures (x & mask) & h != 0 <==> x & h != 0 && mask & h != 0
  {}

  lemma SpreadValues(g: nat)
    requires g <= 3
    ensures Spread(LowBit(g)) == if g % 2 == 1 then ONES else 0
    ensures Spread(HighBit(g)) == if g / 2 == 1 then ONES else 0
  {}

  /** Zero exactly where a generation number is held. */
  function Keep(lo: word, hi: word, g: nat): word { Mask(lo, hi, Spread(LowBit(g)), Spread(HighBit(g))) }

  lemma WipeBit(lo: word, hi: word, g: nat, b: bit)
    requires g <= 3
    ensures var matches := Bit(lo, b) == (g % 2 == 1) && Bit(hi, b) == (g / 2 == 1);
            && Bit(Both(lo, Keep(lo, hi, g)), b) == (Bit(lo, b) && !matches)
            && Bit(Both(hi, Keep(lo, hi, g)), b) == (Bit(hi, b) && !matches)
  {
    hide One, Bit, Hot, On, LowBit, HighBit, Both, Mask, Spread;
    SpreadValues(g);
    var mask := Keep(lo, hi, g);
    OneIsHot(b);
    MaskAt(lo, hi, Spread(LowBit(g)), Spread(HighBit(g)), One(b));
    BothAt(lo, mask, One(b));
    BothAt(hi, mask, One(b));
    BitIsOn(lo, b);
    BitIsOn(hi, b);
    BitIsOn(Both(lo, mask), b);
    BitIsOn(Both(hi, mask), b);
  }

  lemma WipeGeneration(lo: word, hi: word, g: nat, b: bit)
    requires 1 <= g <= 3
    ensures Generation(Both(lo, Keep(lo, hi, g)), Both(hi, Keep(lo, hi, g)), b)
            == if Generation(lo, hi, b) == g then 0 else Generation(lo, hi, b)
  {
    hide Bit, Keep, Both;
    WipeBit(lo, hi, g, b);
  }

  // ----- reading

  /** A position is set when either word has its bit set. */
  lemma EitherBit(lo: word, hi: word, b: bit)
    ensures Bit(Either(lo, hi), b) <==> Generation(lo, hi, b) != 0
  {
    hide One, Bit, Hot, On, Either;
    BitIsOn(lo, b);
    BitIsOn(hi, b);
    BitIsOn(Either(lo, hi), b);
    EitherAt(lo, hi, One(b));
  }

  lemma EitherAt(x: word, y: word, h: word)
    ensures On(Either(x, y), h) <==> On(x, h) || On(y, h)
  {
    if (x | y) & h != 0 { MaskedSome(x, y, h); }
    MaskedNone(x, y, h);
  }

  lemma MaskedSome(x: word, y: word, h: word)
    requires (x | y) & h != 0
    ensures x & h != 0 || y & h != 0
  {}

  lemma MaskedNone(x: word, y: word, h: word)
    ensures (x | y) & h == 0 ==> x & h == 0 && y & h == 0
  {}

  lemma NothingSet(b: bit)
    ensures Generation(0, 0, b) == 0
  {}
}
