/** Unsigned big integers of any width, in place on their limb array. Results are exact modulo the
    width, and every intermediate of a carry loop fits in an unsigned 64-bit word. */
module ArithUint {
  import opened Prelude
  import opened Limbs

  /** The finished limbs, a carry at the next place, and the total they make up. */
  ghost predicate Carried(v: nat, carry: nat, p: nat, total: nat) { v + carry * p == total }

  lemma CarriedMod(v: nat, carry: nat, m: nat, total: nat)
    requires Carried(v, carry, m, total) && v < m
    ensures v == total % m
  {
    ModUnique(v, carry, m, total);
  }

  // ----- addition

  ghost predicate Adding(a: seq<limb>, b: seq<limb>, cur: seq<limb>, i: nat, carry: nat) {
    && |cur| == |a| == |b| && i <= |a| && carry <= 1 && cur[i..] == a[i..]
    && Carried(Value(cur[..i]), carry, Place(i), Value(a[..i]) + Value(b[..i]))
  }

  lemma AddingStep(a: seq<limb>, b: seq<limb>, cur: seq<limb>, i: nat, carry: nat)
    requires Adding(a, b, cur, i, carry) && i < |a|
    ensures var n := carry + cur[i] as nat + b[i] as nat;
            n < WORD64 && Adding(a, b, cur[i := Low(n)], i + 1, High(n))
  {
    var n := carry + cur[i] as nat + b[i] as nat;
    assert cur[i] == cur[i..][0] == a[i];
    HighBound(n);
    LimbWritten(cur, cur[i := Low(n)], i, Low(n));
    ValueStep(a, i);
    ValueStep(b, i);
    PlaceSucc(i);
    var v, p, x, y, va, vb := Value(cur[..i]), Place(i), a[i] as nat, b[i] as nat, Value(a[..i]), Value(b[..i]);
    hide Value, Place;
    AddStep(v, carry, x, y, p, va, vb);
    hide Carried, Times, Low, High;
  }

  lemma AddStep(v: nat, carry: nat, x: nat, y: nat, p: nat, va: nat, vb: nat)
    requires Carried(v, carry, p, va + vb)
    ensures var n := carry + x + y;
            Carried(v + Times(Low(n) as nat, p), High(n), p * BASE, (va + Times(x, p)) + (vb + Times(y, p)))
  {
    CarryStep(carry + x + y, p);
    assert (carry + x + y) * p == carry * p + x * p + y * p;
  }

  lemma AddingDone(a: seq<limb>, b: seq<limb>, cur: seq<limb>, carry: nat)
    requires Adding(a, b, cur, |a|, carry)
    ensures Value(cur) == (Value(a) + Value(b)) % Place(|a|)
  {
    hide Value, Place, Carried;
    assert cur[..|a|] == cur && a[..|a|] == a && b[..|a|] == b;
    ValueBound(cur);
    CarriedMod(Value(cur), carry, Place(|a|), Value(a) + Value(b));
  }

  /** +=: the operand may be the object itself, since each limb of it is read before it is written. */
  method Add(pn: array<limb>, b: array<limb>)
    requires pn.Length == b.Length
    modifies pn
    ensures Value(pn[..]) == (old(Value(pn[..])) + old(Value(b[..]))) % Place(pn.Length)
  {
    ghost var a, bs := pn[..], b[..];
    var carry: nat := 0;
    assert Adding(a, bs, pn[..], 0, 0);
    hide Adding;
    for i := 0 to pn.Length
      invariant Adding(a, bs, pn[..], i, carry)
      invariant forall k | i <= k < b.Length :: b[k] == bs[k]
    {
      AddingStep(a, bs, pn[..], i, carry);
      var n: nat := carry + pn[i] as nat + b[i] as nat;
      pn[i] := Low(n);
      carry := High(n);
    }
    AddingDone(a, bs, pn[..], carry);
  }

  // ----- increment and decrement

  /** The 32-bit successor and predecessor, with wrap-around. */
  function Next(x: limb): limb { (x as nat + 1) % BASE }
  function Previous(x: limb): limb { (x as nat + BASE - 1) % BASE }

  lemma NextStep(x: limb, p: nat)
    ensures Next(x) == 0 ==> Times(Next(x) as nat, p) + p * BASE == Times(x as nat, p) + p
    ensures Next(x) != 0 ==> Times(Next(x) as nat, p) == Times(x as nat, p) + p
    ensures Next(Previous(x)) == x && (Previous(x) as nat == BASE - 1 <==> x == 0)
  {
    var y := x as nat;
    if Next(x) == 0 {
      assert y == BASE - 1;
      assert (BASE - 1) * p + p == BASE * p;
    } else {
      assert (y + 1) * p == y * p + p;
    }
  }

  /** Numbers that agree from limb k on differ by their lower parts only. */
  lemma SameTail(s: seq<limb>, t: seq<limb>, k: nat)
    requires |s| == |t| && k <= |s| && s[k..] == t[k..]
    ensures Value(s) - Value(s[..k]) == Value(t) - Value(t[..k])
  {
    assert s == s[..k] + s[k..] && t == t[..k] + t[k..];
    ValueConcat(s[..k], s[k..]);
    ValueConcat(t[..k], t[k..]);
  }

  /** Limbs below i have wrapped: one is still owed at place i, upwards or downwards. */
  ghost predicate Owing(a: seq<limb>, cur: seq<limb>, i: nat, up: bool) {
    && |cur| == |a| && i < |a| && cur[i..] == a[i..]
    && (if up then Value(cur[..i]) + Place(i) == Value(a[..i]) + 1 else Value(cur[..i]) + 1 == Value(a[..i]) + Place(i))
  }

  /** The result of adding or subtracting one, up to one wrap of the whole width. */
  ghost predicate OffByOne(va: nat, v: nat, m: nat, up: bool) {
    if up then v == va + 1 || v + m == va + 1 else v + 1 == va || v + 1 == va + m
  }

  lemma OwingStep(a: seq<limb>, cur: seq<limb>, i: nat, up: bool)
    requires Owing(a, cur, i, up)
    ensures var x := if up then Next(cur[i]) else Previous(cur[i]); var cur' := cur[i := x];
            var wraps := if up then x == 0 else x as nat == BASE - 1;
            if wraps && i < |a| - 1 then Owing(a, cur', i + 1, up) else OffByOne(Value(a), Value(cur'), Place(|a|), up)
  {
    hide Value, Place, Times, Next, Previous;
    var x := if up then Next(cur[i]) else Previous(cur[i]);
    var cur' := cur[i := x];
    assert cur[i] == cur[i..][0] == a[i];
    NextStep(if up then a[i] else x, Place(i));
    NextStep(a[i], Place(i));
    LimbWritten(cur, cur', i, x);
    ValueStep(a, i);
    PlaceSucc(i);
    SameTail(cur', a, i + 1);
    if i == |a| - 1 { assert cur'[..i + 1] == cur' && a[..i + 1] == a; }
  }

  lemma OffByOneMod(va: nat, v: nat, m: nat, up: bool)
    requires OffByOne(va, v, m, up) && va < m && v < m
    ensures up ==> v == (va + 1) % m
    ensures !up ==> v == (va + m - 1) % m
  {
    if up {
      ModUnique(v, if v == va + 1 then 0 else 1, m, va + 1);
    } else {
      ModUnique(v, if v + 1 == va then 1 else 0, m, va + m - 1);
    }
  }

  /** ++: the carry runs through the limbs that wrap to zero. */
  method Increment(pn: array<limb>)
    requires pn.Length > 0
    modifies pn
    ensures Value(pn[..]) == (old(Value(pn[..])) + 1) % Place(pn.Length)
  {
    ghost var a := pn[..];
    assert Owing(a, pn[..], 0, true);
    hide Owing, OffByOne, Next;
    var i := 0;
    OwingStep(a, pn[..], i, true);
    pn[i] := Next(pn[i]);
    while pn[i] == 0 && i < pn.Length - 1
      invariant 0 <= i < pn.Length
      invariant pn[i] == 0 && i < pn.Length - 1 ==> Owing(a, pn[..], i + 1, true)
      invariant !(pn[i] == 0 && i < pn.Length - 1) ==> OffByOne(Value(a), Value(pn[..]), Place(pn.Length), true)
    {
      i := i + 1;
      OwingStep(a, pn[..], i, true);
      pn[i] := Next(pn[i]);
    }
    ValueBound(pn[..]);
    ValueBound(a);
    OffByOneMod(Value(a), Value(pn[..]), Place(pn.Length), true);
  }

  /** --: the borrow runs through the limbs that wrap to all ones. */
  method Decrement(pn: array<limb>)
    requires pn.Length > 0
    modifies pn
    ensures Value(pn[..]) == (old(Value(pn[..])) + Place(pn.Length) - 1) % Place(pn.Length)
  {
    ghost var a := pn[..];
    assert Owing(a, pn[..], 0, false);
    hide Owing, OffByOne, Previous;
    var i := 0;
    OwingStep(a, pn[..], i, false);
    pn[i] := Previous(pn[i]);
    while pn[i] as nat == BASE - 1 && i < pn.Length - 1
      invariant 0 <= i < pn.Length
      invariant pn[i] as nat == BASE - 1 && i < pn.Length - 1 ==> Owing(a, pn[..], i + 1, false)
      invariant !(pn[i] as nat == BASE - 1 && i < pn.Length - 1) ==>
                  OffByOne(Value(a), Value(pn[..]), Place(pn.Length), false)
    {
      i := i + 1;
      OwingStep(a, pn[..], i, false);
      pn[i] := Previous(pn[i]);
    }
    ValueBound(pn[..]);
    ValueBound(a);
    OffByOneMod(Value(a), Value(pn[..]), Place(pn.Length), false);
  }

  // ----- negation and subtraction

  ghost predicate Complementing(b: seq<limb>, cur: seq<limb>, i: nat) {
    |cur| == |b| && i <= |b| && Value(cur[..i]) + Value(b[..i]) + 1 == Place(i)
  }

  lemma ComplementStep(b: seq<limb>, cur: seq<limb>, i: nat)
    requires Complementing(b, cur, i) && i < |b|
    ensures Complementing(b, cur[i := BASE - 1 - b[i] as nat], i + 1)
  {
    LimbWritten(cur, cur[i := BASE - 1 - b[i] as nat], i, BASE - 1 - b[i] as nat);
    ValueStep(b, i);
    PlaceSucc(i);
    var x, p := b[i] as nat, Place(i);
    assert Times(BASE - 1 - x, p) + Times(x, p) + p == p * BASE by {
      assert (BASE - 1 - x) * p + x * p + p == (BASE - 1 - x + x + 1) * p;
    }
    hide Value, Place, Times;
  }

  /** Unary minus: complement and increment. */
  method Negate(b: array<limb>) returns (ret: array<limb>)
    requires b.Length > 0
    ensures fresh(ret) && ret.Length == b.Length && Value(ret[..]) == (Place(b.Length) - Value(b[..])) % Place(b.Length)
  {
    ghost var bs := b[..];
    ret := new limb[b.Length];
    assert Complementing(bs, ret[..], 0);
    hide Complementing;
    for i := 0 to b.Length
      invariant Complementing(bs, ret[..], i)
    {
      ComplementStep(bs, ret[..], i);
      ret[i] := BASE - 1 - b[i] as nat;
    }
    Complemented(bs, ret[..]);
    Increment(ret);
  }

  lemma Complemented(b: seq<limb>, cur: seq<limb>)
    requires Complementing(b, cur, |b|)
    ensures Value(cur) + 1 == Place(|b|) - Value(b)
  {
    assert cur[..|b|] == cur && b[..|b|] == b;
  }

  method Subtract(pn: array<limb>, b: array<limb>)
    requires pn.Length == b.Length > 0
    modifies pn
    ensures Value(pn[..]) == (old(Value(pn[..])) + Place(pn.Length) - old(Value(b[..]))) % Place(pn.Length)
    ensures old(Value(b[..])) <= old(Value(pn[..])) ==> Value(pn[..]) == old(Value(pn[..])) - old(Value(b[..]))
  {
    hide Value, Place;
    ghost var va, vb, m := Value(pn[..]), Value(b[..]), Place(pn.Length);
    ValueBound(pn[..]);
    ValueBound(b[..]);
    var negated := Negate(b);
    Add(pn, negated);
    SubtractMod(va, vb, m);
  }

  lemma SubtractMod(va: nat, vb: nat, m: nat)
    requires va < m && vb < m
    ensures (va + (m - vb) % m) % m == (va + m - vb) % m
    ensures vb <= va ==> (va + m - vb) % m == va - vb
  {
    if vb == 0 {
      DivModUnique(m, m, 1, 0);
      ModShift(va, 1, m);
    } else {
      DivModUnique(m - vb, m, 0, m - vb);
    }
    if vb <= va { ModShift(va - vb, 1, m); DivModUnique(va - vb, m, 0, va - vb); }
  }

  // ----- multiplication

  /** The largest product and two carried limbs still fit in 64 bits. */
  lemma MulBound(x: nat, y: nat)
    requires x < BASE && y < BASE
    ensures Times(x, y) <= (BASE - 1) * (BASE - 1)
  {
    MulLe(x, BASE - 1, y);
    MulLe(y, BASE - 1, BASE - 1);
  }

  ghost predicate Scaling(a: seq<limb>, b: nat, cur: seq<limb>, i: nat, carry: nat) {
    && |cur| == |a| && i <= |a| && carry < BASE && cur[i..] == a[i..]
    && Carried(Value(cur[..i]), carry, Place(i), Times(Value(a[..i]), b))
  }

  lemma ScalingStep(a: seq<limb>, b: nat, cur: seq<limb>, i: nat, carry: nat)
    requires Scaling(a, b, cur, i, carry) && i < |a| && b < BASE
    ensures var n := carry + Times(b, cur[i] as nat); n < WORD64 && Scaling(a, b, cur[i := Low(n)], i + 1, High(n))
  {
    assert cur[i] == cur[i..][0] == a[i];
    MulBound(b, a[i] as nat);
    var n := carry + Times(b, cur[i] as nat);
    HighBound(n);
    LimbWritten(cur, cur[i := Low(n)], i, Low(n));
    ValueStep(a, i);
    PlaceSucc(i);
    ScaleStep(Value(cur[..i]), carry, Place(i), Value(a[..i]), a[i] as nat, b);
    hide Value, Place, Carried, Times, Low, High;
  }

  lemma ScaleStep(v: nat, carry: nat, p: nat, va: nat, x: nat, b: nat)
    requires Carried(v, carry, p, Times(va, b))
    ensures var n := carry + Times(b, x);
            Carried(v + Times(Low(n) as nat, p), High(n), p * BASE, Times(va + Times(x, p), b))
  {
    var n := carry + b * x;
    CarryStep(n, p);
    assert n * p == carry * p + (b * x) * p;
    assert (va + x * p) * b == va * b + (b * x) * p by { assert (x * p) * b == (b * x) * p; }
  }

  method Multiply32(pn: array<limb>, b32: limb)
    modifies pn
    ensures Value(pn[..]) == Times(old(Value(pn[..])), b32 as nat) % Place(pn.Length)
  {
    ghost var a := pn[..];
    var carry: nat := 0;
    assert Scaling(a, b32 as nat, pn[..], 0, 0);
    hide Scaling;
    for i := 0 to pn.Length
      invariant Scaling(a, b32 as nat, pn[..], i, carry)
    {
      ScalingStep(a, b32 as nat, pn[..], i, carry);
      var n: nat := carry + Times(b32 as nat, pn[i] as nat);
      pn[i] := Low(n);
      carry := High(n);
    }
    ScalingDone(a, b32 as nat, pn[..], carry);
  }

  lemma ScalingDone(a: seq<limb>, b: nat, cur: seq<limb>, carry: nat)
    requires Scaling(a, b, cur, |a|, carry)
    ensures Value(cur) == Times(Value(a), b) % Place(|a|)
  {
    hide Value, Place, Carried, Times;
    assert cur[..|a|] == cur && a[..|a|] == a;
    ValueBound(cur);
    CarriedMod(Value(cur), carry, Place(|a|), Times(Value(a), b));
  }

  /** Part of a row of long multiplication: limb x at place j times the first i limbs of b, added to a. */
  ghost predicate InRow(a: seq<limb>, b: seq<limb>, x: nat, j: nat, cur: seq<limb>, i: nat, carry: nat) {
    && |cur| == |a| == |b| && i + j <= |a| && carry < BASE && cur[i + j..] == a[i + j..]
    && Carried(Value(cur[..i + j]), carry, Place(i + j), Value(a[..i + j]) + Times(Times(x, Place(j)), Value(b[..i])))
  }

  lemma InRowStart(a: seq<limb>, b: seq<limb>, x: nat, j: nat)
    requires |a| == |b| && j <= |a|
    ensures InRow(a, b, x, j, a, 0, 0)
  {
    assert b[..0] == [] && Value([]) == 0;
    hide Value, Place;
    assert Times(Times(x, Place(j)), 0) == 0;
  }

  lemma InRowStep(a: seq<limb>, b: seq<limb>, x: nat, j: nat, cur: seq<limb>, i: nat, carry: nat)
    requires InRow(a, b, x, j, cur, i, carry) && i + j < |a| && x < BASE
    ensures var n := carry + cur[i + j] as nat + Times(x, b[i] as nat);
            n < WORD64 && InRow(a, b, x, j, cur[i + j := Low(n)], i + 1, High(n))
  {
    var k := i + j;
    assert cur[k] == cur[k..][0] == a[k];
    MulBound(x, b[i] as nat);
    var n := carry + cur[k] as nat + Times(x, b[i] as nat);
    HighBound(n);
    LimbWritten(cur, cur[k := Low(n)], k, Low(n));
    ValueStep(a, k);
    ValueStep(b, i);
    PlaceSucc(k);
    PlaceAdd(i, j);
    hide Value, Place;
    RowStep(Value(cur[..k]), carry, Place(i), Place(j), Place(k), Value(a[..k]), Value(b[..i]), a[k] as nat, x,
      b[i] as nat);
    hide Carried, Times, Low, High;
  }

  lemma RowStep(v: nat, carry: nat, pi: nat, pj: nat, p: nat, va: nat, vb: nat, y: nat, x: nat, b: nat)
    requires p == pi * pj && Carried(v, carry, p, va + Times(Times(x, pj), vb))
    ensures var n := carry + y + Times(x, b);
            Carried(v + Times(Low(n) as nat, p), High(n), p * BASE,
                    (va + Times(y, p)) + Times(Times(x, pj), vb + Times(b, pi)))
  {
    var n := carry + y + x * b;
    CarryStep(n, p);
    assert n * p == carry * p + y * p + (x * b) * p;
    assert (x * pj) * (vb + b * pi) == (x * pj) * vb + (x * b) * p by { assert (x * pj) * (b * pi) == (x * b) * p; }
  }

  method MultiplyRow(pn: array<limb>, j: nat, x: limb, b: array<limb>, ghost bs: seq<limb>) returns (ghost c: nat)
    requires pn.Length == b.Length == |bs| && j < pn.Length
    requires if b == pn then Cleared(pn[..]) else b[..] == bs
    modifies pn
    ensures if b == pn then Cleared(pn[..]) else InRow(old(pn[..]), bs, x as nat, j, pn[..], |bs| - j, c)
  {
    hide InRow;
    ghost var a := pn[..];
    var carry: nat := 0;
    var i := 0;
    InRowStart(a, bs, x as nat, j);
    while i + j < pn.Length
      invariant i + j <= pn.Length
      invariant if b == pn then Cleared(pn[..]) && carry == 0
                else b[..] == bs && InRow(a, bs, x as nat, j, pn[..], i, carry)
    {
      if b == pn {
        NothingAdded(x as nat);
        assert pn[..][i] == 0 && pn[..][i + j] == 0;
      } else {
        InRowStep(a, bs, x as nat, j, pn[..], i, carry);
      }
      var n: nat := carry + pn[i + j] as nat + Times(x as nat, b[i] as nat);
      pn[i + j] := Low(n);
      carry := High(n);
      i := i + 1;
    }
    c := carry;
  }

  ghost predicate Cleared(s: seq<limb>) { forall k | 0 <= k < |s| :: s[k] == 0 }

  lemma NothingAdded(x: nat)
    ensures Times(x, 0) == 0 && Low(0) == 0 && High(0) == 0
  {}

  /** *=: exact, unless the operand is the object itself. The object is cleared before its operand is
      read, so multiplying a number by itself in place always gives zero. */
  method Multiply(pn: array<limb>, b: array<limb>)
    requires pn.Length == b.Length
    modifies pn
    ensures b != pn ==> Value(pn[..]) == Times(old(Value(pn[..])), Value(b[..])) % Place(pn.Length)
    ensures b == pn ==> Value(pn[..]) == 0
  {
    hide Times, Place, Value, InRow;
    var a := pn[..];
    ghost var bs := b[..];
    for i := 0 to pn.Length
      invariant forall k | 0 <= k < i :: pn[k] == 0
      invariant b != pn ==> b[..] == bs
    {
      pn[i] := 0;
    }
    ProductStart(pn[..], a, bs);
    for j := 0 to pn.Length
      invariant if b == pn then Cleared(pn[..]) else b[..] == bs && Product(pn[..], a, bs, j)
    {
      ghost var before := pn[..];
      ghost var c := MultiplyRow(pn, j, a[j], b, bs);
      if b != pn { ProductStep(before, pn[..], c, a, bs, j); }
    }
    if b != pn { ProductDone(pn[..], a, bs); } else { AllZero(pn[..]); }
  }

  /** When zero is the right square: exactly when the lower half of the bits is zero. */
  lemma {:induction false} SquareVanishes(x: nat, k: nat)
    ensures Times(x, x) % Pow2(2 * k) == 0 <==> x % Pow2(k) == 0
  {
    if k > 0 {
      SquareVanishes(x / 2, k - 1);
      if x % 2 == 0 { EvenSquare(x / 2, k - 1); } else { OddSquare(x, k - 1); }
    }
  }

  lemma Doubled(k: nat)
    ensures Pow2(k + 1) == 2 * Pow2(k) && Pow2(2 * (k + 1)) == 4 * Pow2(2 * k)
  {
    assert Pow2(2 * k + 1) == 2 * Pow2(2 * k);
  }

  lemma EvenSquare(y: nat, k: nat)
    ensures (2 * y) % Pow2(k + 1) == 0 <==> y % Pow2(k) == 0
    ensures Times(2 * y, 2 * y) % Pow2(2 * (k + 1)) == 0 <==> Times(y, y) % Pow2(2 * k) == 0
  {
    hide Pow2;
    Doubled(k);
    assert Times(2 * y, 2 * y) == 4 * Times(y, y);
    hide Times;
    Scaled(y, Pow2(k), 2);
    Scaled(Times(y, y), Pow2(2 * k), 4);
  }

  lemma OddSquare(x: nat, k: nat)
    requires x % 2 == 1
    ensures x % Pow2(k + 1) != 0 && Times(x, x) % Pow2(2 * (k + 1)) != 0
  {
    hide Pow2;
    Doubled(k);
    OddTimesOdd(x);
    hide Times;
    OddNotMultiple(x, Pow2(k));
    OddNotMultiple(Times(x, x), 2 * Pow2(2 * k));
  }

  lemma OddTimesOdd(x: nat)
    requires x % 2 == 1
    ensures Times(x, x) % 2 == 1
  {
    var y := x / 2;
    assert (2 * y + 1) * (2 * y + 1) == 2 * (2 * (y * y) + 2 * y) + 1;
  }

  lemma Scaled(x: nat, m: nat, f: nat)
    requires m >= 1 && f >= 1
    ensures (f * x) % (f * m) == 0 <==> x % m == 0
  {
    if x % m == 0 {
      assert f * x == (f * m) * (x / m) by { assert x == m * (x / m); }
      DivModUnique(f * x, f * m, x / m, 0);
    } else {
      assert f * x == (f * m) * (x / m) + f * (x % m) by { assert x == m * (x / m) + x % m; }
      assert 0 < f * (x % m) < f * m;
      DivModUnique(f * x, f * m, x / m, f * (x % m));
    }
  }

  lemma OddNotMultiple(x: nat, m: nat)
    requires x % 2 == 1 && m >= 1
    ensures x % (2 * m) != 0
  {
    var q, r := x / (2 * m), x % (2 * m);
    assert x == 2 * m * q + r;
    assert x == 2 * (m * q) + r;
  }

  /** So squaring in place is right exactly for these numbers; one is the smallest counterexample. */
  lemma SquareInPlaceExact(x: nat, n: nat)
    ensures 0 == Times(x, x) % Place(n) <==> x % Pow2(16 * n) == 0
    ensures n > 0 ==> 1 % Pow2(16 * n) != 0
  {
    PlaceIsPow2(n);
    SquareVanishes(x, 16 * n);
    if n > 0 {
      assert Pow2(16 * n) == 2 * Pow2(16 * n - 1);
      OddNotMultiple(1, Pow2(16 * n - 1));
    }
  }

  /** The rows added so far agree with the product modulo the width. */
  ghost predicate Product(cur: seq<limb>, a: seq<limb>, b: seq<limb>, j: nat) {
    && |cur| == |a| == |b| && j <= |a|
    && Value(cur) % Place(|b|) == Times(Value(a[..j]), Value(b)) % Place(|b|)
  }

  lemma ProductStart(cur: seq<limb>, a: seq<limb>, b: seq<limb>)
    requires |cur| == |a| == |b| && forall i | 0 <= i < |cur| :: cur[i] == 0
    ensures Product(cur, a, b, 0)
  {
    AllZero(cur);
    assert a[..0] == [];
    assert Times(Value(a[..0]), Value(b)) == 0;
  }

  lemma ProductDone(cur: seq<limb>, a: seq<limb>, b: seq<limb>)
    requires Product(cur, a, b, |a|)
    ensures Value(cur) == Times(Value(a), Value(b)) % Place(|b|)
  {
    hide Value, Place, Times;
    assert a[..|a|] == a;
    ValueBound(cur);
    ModUnique(Value(cur), 0, Place(|b|), Value(cur));
  }

  /** What a row leaves out of the second factor lies beyond the width. */
  lemma ProductStep(before: seq<limb>, after: seq<limb>, c: nat, a: seq<limb>, b: seq<limb>, j: nat)
    requires Product(before, a, b, j) && j < |a| && InRow(before, b, a[j] as nat, j, after, |b| - j, c)
    ensures Product(after, a, b, j + 1)
  {
    var k := |b| - j;
    assert b == b[..k] + b[k..] && after[..|b|] == after && before[..|b|] == before;
    ValueConcat(b[..k], b[k..]);
    PlaceAdd(j, k);
    ValueStep(a, j);
    hide Carried, Times, Place, Value;
    RowArith(Value(before), Value(after), c, a[j] as nat, Place(j), Place(k), Place(|b|), Value(b[..k]),
      Value(b[k..]), Value(b), Value(a[..j]));
  }

  lemma RowArith(before: nat, after: nat, c: nat, x: nat, pj: nat, pk: nat, m: nat, lo: nat, hi: nat, vb: nat, va: nat)
    requires m == pj * pk >= 1 && vb == lo + pk * hi
    requires Carried(after, c, m, before + Times(Times(x, pj), lo))
    requires before % m == Times(va, vb) % m
    ensures after % m == Times(va + Times(x, pj), vb) % m
  {
    var xp := x * pj;
    RowTail(x, pj, pk, lo, hi);
    ModShift(after, c, m);
    ModShift(va * vb + xp * lo, x * hi, m);
    ModCongruent(before, va * vb, xp * lo, m);
    Expand(va, xp, vb);
  }

  lemma Expand(a: nat, b: nat, c: nat)
    ensures (a + b) * c == a * c + b * c
  {
  }

  lemma RowTail(x: nat, pj: nat, pk: nat, lo: nat, hi: nat)
    ensures (x * pj) * (lo + pk * hi) == (x * pj) * lo + (x * hi) * (pj * pk)
  {
    assert (x * pj) * (pk * hi) == (x * hi) * (pj * pk);
  }
}
