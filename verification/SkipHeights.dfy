/** The heights a skip pointer goes to, the walk back over them, and how many steps it takes. */
module SkipHeights {
  import opened Prelude

  /** Bitwise and of non-negative integers. */
  function And(x: nat, y: nat): (r: nat)
    ensures r <= x && r <= y
  {
    if x == 0 || y == 0 then 0 else x % 2 * (y % 2) + 2 * And(x / 2, y / 2)
  }

  function InvertLowestOne(n: nat): nat { if n == 0 then 0 else And(n, n - 1) }

  function GetSkipHeight(height: nat): (h: nat)
    ensures height >= 1 ==> h < height
    ensures height >= 2 && height % 2 == 1 ==> h >= 1
  {
    if height < 2 then 0
    else if height % 2 == 1 then InvertLowestOne(InvertLowestOne(height - 1)) + 1
    else InvertLowestOne(height)
  }

  /** Whether the walk from w down to t follows the skip pointer. */
  predicate Jumps(w: nat, t: nat)
    requires t < w
  {
    var s, sp := GetSkipHeight(w), GetSkipHeight(w - 1);
    s == t || (s > t && !(sp < s - 2 && sp >= t))
  }

  function NextHeight(w: nat, t: nat): (n: nat)
    requires t < w
    ensures t <= n < w
  {
    if Jumps(w, t) then GetSkipHeight(w) else w - 1
  }

  /** The number of steps of the whole walk. */
  function Steps(w: nat, t: nat): nat
    requires t <= w
    decreases w
  {
    if w == t then 0 else 1 + Steps(NextHeight(w, t), t)
  }

  // ----- clearing the lowest one

  function Clear(n: nat): (r: nat)
    ensures n > 0 ==> r < n
    ensures n == 0 ==> r == 0
  {
    if n == 0 then 0 else if n % 2 == 1 then n - 1 else 2 * Clear(n / 2)
  }

  lemma {:induction false} AndSelf(x: nat)
    ensures And(x, x) == x
  {
    if x > 0 { AndSelf(x / 2); }
  }

  lemma {:induction false} ClearIs(n: nat)
    ensures InvertLowestOne(n) == Clear(n)
  {
    if n > 0 {
      if n % 2 == 1 {
        AndSelf(n / 2);
        if n > 1 { assert And(n, n - 1) == 2 * And(n / 2, n / 2); }
      } else {
        ClearIs(n / 2);
        assert (n - 1) / 2 == n / 2 - 1 && (n - 1) % 2 == 1;
        assert And(n, n - 1) == 2 * And(n / 2, n / 2 - 1);
      }
    }
  }

  lemma ClearDouble(x: nat)
    ensures Clear(2 * x) == 2 * Clear(x)
  {}

  lemma ClearOdd(x: nat)
    ensures Clear(2 * x + 1) == 2 * x
  {}

  lemma SkipEven(m: nat)
    requires m >= 1
    ensures GetSkipHeight(2 * m) == 2 * Clear(m)
  {
    hide Clear, InvertLowestOne;
    ClearIs(2 * m);
    ClearDouble(m);
  }

  lemma SkipOdd(m: nat)
    requires m >= 1
    ensures GetSkipHeight(2 * m + 1) == 2 * Clear(Clear(m)) + 1
  {
    hide Clear, InvertLowestOne;
    ClearIs(2 * m);
    ClearIs(Clear(2 * m));
    ClearDouble(m);
    ClearDouble(Clear(m));
  }

  // ----- where two heights part

  /** The highest bit in which w differs from a smaller t. */
  function Parting(w: nat, t: nat): nat
    requires t < w
  {
    if w / 2 == t / 2 then 0 else 1 + Parting(w / 2, t / 2)
  }

  /** The ones of w below that bit. */
  function Ones(w: nat, t: nat): nat
    requires t < w
  {
    if w / 2 == t / 2 then 0 else w % 2 + Ones(w / 2, t / 2)
  }

  /** The same without the last bit. */
  function HighOnes(w: nat, t: nat): nat
    requires t < w
  {
    if w / 2 == t / 2 then 0 else Ones(w / 2, t / 2)
  }

  lemma {:induction false} OnesBound(w: nat, t: nat)
    requires t < w
    ensures Ones(w, t) <= Parting(w, t)
  {
    if w / 2 != t / 2 { OnesBound(w / 2, t / 2); }
  }

  /** Clearing the lowest one keeps w above t, and the parting bit in place, as long as a one is left
      below that bit. */
  lemma {:induction false} ClearAbove(w: nat, t: nat)
    requires t < w
    ensures Ones(w, t) == 0 ==> Clear(w) <= t
    ensures Ones(w, t) > 0 ==>
              Clear(w) > t && Parting(Clear(w), t) == Parting(w, t) && Ones(Clear(w), t) == Ones(w, t) - 1
  {
    if w % 2 == 0 {
      ClearAbove(w / 2, t / 2);
      ClearDouble(w / 2);
    } else if w / 2 != t / 2 {
      assert (w - 1) / 2 == w / 2;
    }
  }

  /** With no one below the parting bit, one less parts lower down. */
  lemma {:induction false} PartsLower(w: nat, t: nat)
    requires t < w - 1 && Ones(w, t) == 0
    ensures Parting(w - 1, t) < Parting(w, t)
  {
    if w % 2 == 0 {
      assert (w - 1) / 2 == w / 2 - 1;
      if w / 2 - 1 != t / 2 { PartsLower(w / 2, t / 2); }
    }
  }

  /** All of this in terms of the halves: w is 2 * m + e. */
  lemma Halve(m: nat, e: nat, t: nat)
    requires e <= 1 && t / 2 < m
    ensures t < 2 * m + e && HighOnes(2 * m + e, t) == Ones(m, t / 2) && Parting(2 * m + e, t) == 1 + Parting(m, t / 2)
    ensures Ones(2 * m + e, t) == e + Ones(m, t / 2)
  {
    assert (2 * m + e) / 2 == m && (2 * m + e) % 2 == e;
  }

  lemma Split(n: nat)
    ensures n == 2 * (n / 2) + n % 2
  {}

  // ----- one step from an odd height

  /** Ones in pairs: two of them go with every jump. */
  lemma OddJump(m: nat, t: nat)
    requires t / 2 < m && Ones(m, t / 2) >= 2
    ensures t < 2 * m + 1 && NextHeight(2 * m + 1, t) == 2 * Clear(Clear(m)) + 1
    ensures Clear(Clear(m)) > t / 2 && Parting(Clear(Clear(m)), t / 2) == Parting(m, t / 2)
    ensures Ones(Clear(Clear(m)), t / 2) == Ones(m, t / 2) - 2
  {
    hide Clear, GetSkipHeight, Ones, Parting;
    ClearAbove(m, t / 2);
    ClearAbove(Clear(m), t / 2);
    SkipOdd(m);
    SkipEven(m);
  }

  /** With one left, or none, the walk is two steps from its end or goes to the even height below. */
  lemma OddStep(m: nat, t: nat)
    requires t < 2 * m + 1 && HighOnes(2 * m + 1, t) <= 1
    ensures if GetSkipHeight(2 * m + 1) >= t then Steps(2 * m + 1, t) <= 2 else NextHeight(2 * m + 1, t) == 2 * m
  {
    if m > 0 {
      OddSkipLow(m, t);
      SkipOdd(m);
      SkipEven(m);
      hide Clear, GetSkipHeight, HighOnes;
      if GetSkipHeight(2 * m + 1) >= t { OneStep(t); }
    }
  }

  lemma OddSkipLow(m: nat, t: nat)
    requires m > 0 && t < 2 * m + 1 && HighOnes(2 * m + 1, t) <= 1
    ensures Clear(Clear(m)) <= t / 2
  {
    hide Clear, Ones, Parting;
    if m > t / 2 {
      Halve(m, 1, t);
      ClearAbove(m, t / 2);
      if Clear(m) > t / 2 { ClearAbove(Clear(m), t / 2); }
    }
  }

  lemma OneStep(t: nat)
    ensures Steps(t + 1, t) == 1
  {}

  // ----- one step from an even height

  /** With no one below the parting bit: the end, or the odd height below, which parts lower down. */
  lemma EvenLast(m: nat, t: nat)
    requires t / 2 < m && Ones(m, t / 2) == 0
    ensures t < 2 * m
    ensures Steps(2 * m, t) == 1 ||
            (NextHeight(2 * m, t) == 2 * m - 1 > t && Parting(2 * m - 1, t) < Parting(2 * m, t)
              && Parting(2 * m, t) >= 2)
  {
    SkipEven(m);
    ClearAbove(m, t / 2);
    Halve(m, 0, t);
    if 2 * m - 1 > t { PartsLower(2 * m, t); }
    if Parting(m, t / 2) == 0 { PartsLast(m, t / 2); }
  }

  lemma PartsLast(m: nat, u: nat)
    requires u < m && Parting(m, u) == 0
    ensures m == u + 1 && Clear(m) == u
  {}

  /** The skip pointer of an even height clears one. */
  lemma EvenSkip(m: nat, t: nat)
    requires t / 2 < m && Ones(m, t / 2) >= 1
    ensures GetSkipHeight(2 * m) == 2 * Clear(m) > t
    ensures Clear(m) > t / 2 && Parting(Clear(m), t / 2) == Parting(m, t / 2)
            && Ones(Clear(m), t / 2) == Ones(m, t / 2) - 1
  {
    hide Clear, GetSkipHeight, Ones, Parting;
    SkipEven(m);
    ClearAbove(m, t / 2);
  }

  /** From a multiple of eight the pointer is always followed, to another one. */
  lemma EightJumps(q: nat, t: nat)
    requires t / 2 < 4 * q && Ones(4 * q, t / 2) >= 1
    ensures t < 8 * q && NextHeight(8 * q, t) == 2 * Clear(4 * q) && Clear(4 * q) == 4 * Clear(q)
  {
    hide GetSkipHeight, Clear, Ones;
    EvenSkip(4 * q, t);
    SkipOdd(4 * q - 1);
    ClearOdd(2 * (q - 1) + 1);
    ClearOdd(q - 1);
    ClearDouble(2 * q);
    ClearDouble(q);
    ClearDouble(2 * (q - 1) + 1);
  }

  /** The odd height below a multiple of four that is none of eight. */
  lemma BelowFour(i: nat, t: nat)
    requires var m := 2 * (2 * i + 1); t / 2 < m && Ones(m, t / 2) >= 1
    ensures var m := 2 * (2 * i + 1);
            t / 2 < m - 1 && Parting(m - 1, t / 2) == Parting(m, t / 2) && Ones(m - 1, t / 2) == Ones(m, t / 2)
    ensures Clear(2 * (2 * i + 1)) == 4 * i
    ensures Ones(2 * (2 * i + 1), t / 2) >= 2 ==> t < 4 * (2 * i + 1) && !Jumps(4 * (2 * i + 1), t)
  {
    hide GetSkipHeight, Clear, Ones, Parting;
    var k, u, v := 2 * i + 1, t / 2, t / 2 / 2;
    Split(u);
    Halve(k, 0, u);
    ClearAbove(k, v);
    ClearOdd(i);
    Halve(k - 1, 1, u);
    ClearDouble(k);
    SkipEven(2 * k);
    SkipOdd(2 * k - 1);
    ClearOdd(k - 1);
    ClearDouble(k - 1);
    if Ones(2 * k, u) >= 2 { ClearAbove(Clear(k), v); }
  }

  /** The odd height below an even number that is no multiple of four. */
  lemma BelowTwo(i: nat, t: nat)
    requires var m := 2 * i + 1; t / 2 < m && Ones(m, t / 2) >= 1
    ensures var m := 2 * i + 1;
            t / 2 < m - 1 && Parting(m - 1, t / 2) == Parting(m, t / 2) && Ones(m - 1, t / 2) == Ones(m, t / 2) - 1
    ensures Clear(2 * i + 1) == 2 * i
    ensures Ones(2 * i + 1, t / 2) >= 3 ==> t < 2 * (2 * i + 1) && !Jumps(2 * (2 * i + 1), t)
  {
    hide GetSkipHeight, Clear, Ones, Parting;
    var m, u := 2 * i + 1, t / 2;
    ClearAbove(m, u);
    ClearOdd(i);
    SkipEven(m);
    SkipOdd(m - 1);
    if Ones(m, u) >= 3 {
      ClearAbove(Clear(m), u);
      ClearAbove(Clear(Clear(m)), u);
    }
  }

  // ----- the bound

  /** What the walk below parting bit j costs at most. */
  function Below(j: nat): nat {
    if j <= 1 then 0 else if j == 2 then 2 else if j == 3 then 4 else Below(j - 1) + (j - 1) / 2 + 2
  }

  function OddBound(j: nat, ones: nat): nat {
    if j == 0 then 1 else if j == 2 && ones == 1 then 4 else Below(j) + (ones + 1) / 2 + 2
  }

  function EvenBound(w: nat, j: nat, ones: nat): nat {
    Below(j) + (if w % 8 == 0 || ones <= 1 then ones + 1 else 3 + (ones + 1) / 2)
  }

  function Bound(w: nat, t: nat): nat
    requires t < w
  {
    if w % 2 == 1 then OddBound(Parting(w, t), HighOnes(w, t)) else EvenBound(w, Parting(w, t), HighOnes(w, t))
  }

  lemma HighOnesBound(w: nat, t: nat)
    requires t < w
    ensures Parting(w, t) == 0 ==> HighOnes(w, t) == 0
    ensures Parting(w, t) > 0 ==> HighOnes(w, t) <= Parting(w, t) - 1
  {
    if w / 2 != t / 2 { OnesBound(w / 2, t / 2); }
  }

  lemma {:induction false} BelowCovers(j: nat, lower: nat, ones: nat)
    requires lower < j && j >= 2 && (ones == 0 || ones < lower)
    ensures OddBound(lower, ones) <= Below(j)
  {
    if lower < j - 1 && j > 2 { BelowCovers(j - 1, lower, ones); }
  }

  // ----- three ones at the end, parting in the third

  lemma SevenSkips(q: nat)
    ensures GetSkipHeight(8 * q + 7) == 8 * q + 1 && GetSkipHeight(8 * q + 6) == 8 * q + 4
    ensures GetSkipHeight(8 * q + 5) <= 8 * q + 1 && GetSkipHeight(8 * q + 4) == 8 * q
            && GetSkipHeight(8 * q + 3) <= 8 * q + 1
  {
    hide GetSkipHeight, Clear;
    SkipOdd(4 * q + 3);
    SkipEven(4 * q + 3);
    SkipOdd(4 * q + 2);
    SkipEven(4 * q + 2);
    SkipOdd(4 * q + 1);
    ClearOdd(2 * q + 1);
    ClearOdd(2 * q);
    ClearOdd(q);
    ClearDouble(2 * q + 1);
    ClearDouble(2 * q);
    ClearDouble(q);
  }

  /** The one case for which the general count is too high. */
  lemma LastSeven(q: nat, t: nat)
    requires 8 * q <= t < 8 * q + 4
    ensures Steps(8 * q + 7, t) <= 4
  {
    hide GetSkipHeight;
    SevenSkips(q);
    if t <= 8 * q + 1 {
      assert NextHeight(8 * q + 7, t) == 8 * q + 1;
      if t == 8 * q { OneStep(t); }
    } else {
      assert NextHeight(8 * q + 7, t) == 8 * q + 6 && NextHeight(8 * q + 6, t) == 8 * q + 4;
      assert NextHeight(8 * q + 4, t) == 8 * q + 3;
      assert Steps(8 * q + 3, t) <= 1 by { if t == 8 * q + 2 { OneStep(t); } }
      assert Steps(8 * q + 4, t) <= 2;
      assert Steps(8 * q + 6, t) <= 3;
    }
  }

  lemma IsSeven(m: nat, t: nat)
    requires t / 2 < m && Parting(m, t / 2) == 1 && Ones(m, t / 2) == 1
    ensures m % 4 == 3 && m / 4 == t / 8 && t % 8 < 4
  {
    var u := t / 2;
    assert Parting(m / 2, u / 2) == 0 && Ones(m / 2, u / 2) == 0;
    assert t / 2 / 2 / 2 == t / 8;
  }

  // ----- all steps

  lemma Unfold(w: nat, t: nat)
    requires t < w
    ensures Steps(w, t) == 1 + Steps(NextHeight(w, t), t)
  {}

  /** A step that is not taken along the skip pointer goes to the height before. */
  lemma Either(w: nat, t: nat)
    requires t < w
    ensures NextHeight(w, t) == (if Jumps(w, t) then GetSkipHeight(w) else w - 1)
    ensures GetSkipHeight(w) > t && !Jumps(w, t) ==> GetSkipHeight(w - 1) >= t
  {}

  lemma {:induction false} BelowGrows(j: nat)
    ensures j >= 2 ==> Below(j) >= 2
  {
    if j >= 2 { BelowGrows(j - 1); }
  }

  ghost predicate NextBounded(w: nat, t: nat)
    requires t < w
  {
    NextHeight(w, t) > t ==> Steps(NextHeight(w, t), t) <= Bound(NextHeight(w, t), t)
  }

  lemma OddCase(m: nat, t: nat)
    requires t < 2 * m + 1 && NextBounded(2 * m + 1, t)
    ensures Steps(2 * m + 1, t) <= Bound(2 * m + 1, t)
  {
    hide Steps, NextHeight, Jumps, GetSkipHeight, Parting, HighOnes, Ones, Clear, Below;
    if t / 2 == m {
      Split(t);
      OneStep(t);
      LastBit(m);
    } else {
      Halve(m, 1, t);
      Unfold(2 * m + 1, t);
      if Ones(m, t / 2) >= 2 {
        OddJump(m, t);
        Halve(Clear(Clear(m)), 1, t);
        HighOnesBound(2 * m + 1, t);
      } else {
        OddFew(m, t);
      }
    }
  }

  lemma LastBit(m: nat)
    ensures Parting(2 * m + 1, 2 * m) == 0
  {}

  lemma OddFew(m: nat, t: nat)
    requires t / 2 < m && Ones(m, t / 2) <= 1 && t < 2 * m + 1 && NextBounded(2 * m + 1, t)
    ensures Steps(2 * m + 1, t) <= Bound(2 * m + 1, t)
  {
    hide Steps, NextHeight, Jumps, GetSkipHeight, Parting, HighOnes, Ones, Clear, Below;
    var w, j, a := 2 * m + 1, 1 + Parting(m, t / 2), Ones(m, t / 2);
    Unfold(w, t);
    Halve(m, 1, t);
    Halve(m, 0, t);
    OddStep(m, t);
    if GetSkipHeight(w) < t && j == 2 && a == 1 {
      IsSeven(m, t);
      LastSeven(m / 4, t);
    }
  }

  lemma EvenCase(m: nat, t: nat)
    requires t < 2 * m && NextBounded(2 * m, t)
    ensures Steps(2 * m, t) <= Bound(2 * m, t)
  {
    hide Steps, NextHeight, Jumps, GetSkipHeight, Parting, HighOnes, Ones, Clear, Below;
    Split(t);
    Split(m);
    Split(m / 2);
    if Ones(m, t / 2) == 0 {
      EvenNone(m, t);
    } else if m % 2 == 1 {
      EvenTwo(m / 2, t);
    } else if m / 2 % 2 == 1 {
      EvenFour(m / 2 / 2, t);
    } else {
      EvenEight(m / 2 / 2, t);
    }
  }

  lemma EvenNone(m: nat, t: nat)
    requires t < 2 * m && t / 2 < m && Ones(m, t / 2) == 0 && NextBounded(2 * m, t)
    ensures Steps(2 * m, t) <= Bound(2 * m, t)
  {
    hide Steps, NextHeight, Jumps, GetSkipHeight, Parting, HighOnes, Ones, Clear, Below;
    Halve(m, 0, t);
    Unfold(2 * m, t);
    EvenLast(m, t);
    if Steps(2 * m, t) != 1 {
      HighOnesBound(2 * m - 1, t);
      BelowCovers(Parting(2 * m, t), Parting(2 * m - 1, t), HighOnes(2 * m - 1, t));
    }
  }

  lemma EvenEight(q: nat, t: nat)
    requires t < 8 * q && t / 2 < 4 * q && Ones(4 * q, t / 2) >= 1 && NextBounded(8 * q, t)
    ensures Steps(8 * q, t) <= Bound(8 * q, t)
  {
    hide Steps, NextHeight, Jumps, GetSkipHeight, Parting, HighOnes, Ones, Clear, Below;
    Halve(4 * q, 0, t);
    Unfold(8 * q, t);
    EightJumps(q, t);
    EvenSkip(4 * q, t);
    Halve(Clear(4 * q), 0, t);
  }

  lemma EvenFour(i: nat, t: nat)
    requires var m := 2 * (2 * i + 1); t < 2 * m && t / 2 < m && Ones(m, t / 2) >= 1 && NextBounded(2 * m, t)
    ensures Steps(4 * (2 * i + 1), t) <= Bound(4 * (2 * i + 1), t)
  {
    hide Steps, NextHeight, Jumps, GetSkipHeight, Parting, HighOnes, Ones, Clear, Below;
    var m := 2 * (2 * i + 1);
    Halve(m, 0, t);
    Unfold(2 * m, t);
    Either(2 * m, t);
    BelowFour(i, t);
    EvenSkip(m, t);
    Halve(Clear(m), 0, t);
    Halve(m - 1, 1, t);
    HighOnesBound(2 * m, t);
    BelowGrows(Parting(2 * m, t));
    if !Jumps(2 * m, t) && Ones(m, t / 2) == 1 { OddStep(m - 1, t); }
  }

  lemma EvenTwo(i: nat, t: nat)
    requires var m := 2 * i + 1; t < 2 * m && t / 2 < m && Ones(m, t / 2) >= 1 && NextBounded(2 * m, t)
    ensures Steps(2 * (2 * i + 1), t) <= Bound(2 * (2 * i + 1), t)
  {
    hide Steps, NextHeight, Jumps, GetSkipHeight, Parting, HighOnes, Ones, Clear, Below;
    var m := 2 * i + 1;
    Halve(m, 0, t);
    Unfold(2 * m, t);
    Either(2 * m, t);
    BelowTwo(i, t);
    EvenSkip(m, t);
    Halve(Clear(m), 0, t);
    Halve(m - 1, 1, t);
    HighOnesBound(2 * m, t);
    BelowGrows(Parting(2 * m, t));
    if !Jumps(2 * m, t) && Ones(m, t / 2) <= 2 { OddStep(m - 1, t); }
  }

  /** The walk takes no more steps than this, from any height down to any other. */
  lemma {:induction false} StepsBound(w: nat, t: nat)
    requires t < w
    ensures Steps(w, t) <= Bound(w, t)
    decreases w
  {
    hide Steps, Bound;
    var n := NextHeight(w, t);
    if n > t { StepsBound(n, t); }
    Split(w);
    if w % 2 == 1 { OddCase(w / 2, t); } else { EvenCase(w / 2, t); }
  }

  // ----- the bound in numbers

  lemma {:induction false} PartingBelow(w: nat, t: nat, bits: nat)
    requires t < w < Pow2(bits)
    ensures bits > 0 && Parting(w, t) <= bits - 1
  {
    if w / 2 != t / 2 { PartingBelow(w / 2, t / 2, bits - 1); }
  }

  lemma {:induction false} BelowMonotone(i: nat, j: nat)
    requires i <= j
    ensures Below(i) <= Below(j)
  {
    if i < j { BelowMonotone(i, j - 1); }
  }

  lemma {:induction false} BelowClosed(j: nat)
    requires j >= 3
    ensures 4 * Below(j) == j * j + 6 * j - (if j % 2 == 0 then 12 else 11)
  {
    if j > 3 {
      BelowClosed(j - 1);
      assert (j - 1) * (j - 1) == j * j - 2 * j + 1;
    }
  }

  /** The ones of a multiple of eight are above its last three bits. */
  lemma EightOnes(w: nat, t: nat)
    requires t < w && w % 8 == 0
    ensures Parting(w, t) >= 3 && HighOnes(w, t) <= Parting(w, t) - 3
  {
    hide Ones, Parting, HighOnes;
    var q, v := w / 8, t / 2 / 2;
    assert w == 8 * q;
    Split(t);
    Split(t / 2);
    Split(v);
    Halve(4 * q, 0, t);
    Halve(2 * q, 0, t / 2);
    Halve(q, 0, v);
    OnesBound(q, v / 2);
  }

  lemma BoundBy(w: nat, t: nat)
    requires t < w
    ensures Bound(w, t) <= Below(Parting(w, t)) + Parting(w, t) + 2
    ensures Parting(w, t) <= 17 ==> Bound(w, t) <= 110
  {
    hide Parting, HighOnes, Below;
    var j := Parting(w, t);
    HighOnesBound(w, t);
    if w % 8 == 0 { EightOnes(w, t); }
    if j <= 17 {
      BelowMonotone(j, 17);
      BelowClosed(17);
    }
  }

  /** The number of steps grows with the square of the number of bits of the height. */
  lemma StepsQuadratic(w: nat, t: nat, bits: nat)
    requires t < w < Pow2(bits)
    ensures 4 * Steps(w, t) <= bits * bits + 8 * bits
  {
    hide Steps, Bound, Below, Parting, Pow2;
    PartingBelow(w, t, bits);
    StepsBound(w, t);
    BoundBy(w, t);
    BelowMonotone(Parting(w, t), bits - 1);
    InBits(bits);
  }

  lemma InBits(bits: nat)
    requires bits > 0
    ensures 4 * (Below(bits - 1) + bits - 1 + 2) <= bits * bits + 8 * bits
  {
    var j := bits - 1;
    if j >= 3 {
      BelowClosed(j);
      hide Below;
      assert bits * bits == j * j + 2 * j + 1;
    }
  }

  /** Among the first 2 to the 18 heights no walk takes more than 110 steps. */
  lemma StepsAtMost110(w: nat, t: nat)
    requires t < w < 0x4_0000
    ensures Steps(w, t) <= 110
  {
    hide Steps, Bound, Below, Parting;
    assert Pow2(18) == 0x4_0000 by { assert Pow2(6) == 64 && Pow2(12) == 4096; }
    PartingBelow(w, t, 18);
    StepsBound(w, t);
    BoundBy(w, t);
  }
}
