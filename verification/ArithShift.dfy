/** Shifts, bit length and comparison of big integers in place on their limb array. */
module ArithShift {
  import opened Prelude
  import opened Limbs

  // ----- one limb shifted by s < 32

  /** x << s within 32 bits, and the bits that leave at the top. */
  function Lo(x: limb, s: nat): limb { Low(Times(x as nat, Pow2(s))) }
  function Hi(x: limb, s: nat): nat { High(Times(x as nat, Pow2(s))) }

  /** x >> n */
  function Shr(x: limb, n: nat): nat { Quotient(x as nat, Pow2(n)) }

  lemma LoHi(x: limb, s: nat)
    requires s < 32
    ensures Hi(x, s) == Shr(x, 32 - s) && Hi(x, s) < Pow2(s)
    ensures Lo(x, s) as nat % Pow2(s) == 0
    ensures Lo(x, s) as nat + Times(Hi(x, s), BASE) == Times(x as nat, Pow2(s))
  {
    hide Pow2;
    Pow2Of32();
    Pow2Add(s, 32 - s);
    LoHiParts(x as nat, Pow2(s), Pow2(32 - s));
  }

  lemma LoHiParts(x: nat, p: nat, q: nat)
    requires x < BASE && p >= 1 && q >= 1 && p * q == BASE
    ensures High(x * p) == Quotient(x, q) < p && Low(x * p) as nat % p == 0
    ensures Low(x * p) as nat + Times(High(x * p), BASE) == Times(x, p)
  {
    var n := x * p;
    DivDiv(n, p, q);
    DivModUnique(n, p, x, 0);
    QuotientBelow(x, p, q);
    LowMultiple(n, p, q, x);
  }

  /** Bits below s and a limb shifted up by s do not meet. */
  lemma OrRoom(x: limb, s: nat, y: nat)
    requires s < 32 && y < Pow2(s)
    ensures Or(y, Lo(x, s) as nat) == y + Lo(x, s) as nat < BASE
  {
    LoHi(x, s);
    Pow2Of32();
    Pow2Add(s, 32 - s);
    OrDisjoint(Lo(x, s) as nat, y, s);
    OrSymmetric(y, Lo(x, s) as nat);
    RoomAbove(Lo(x, s) as nat, Pow2(s), Pow2(32 - s), y);
  }

  lemma QuotientBelow(x: nat, p: nat, q: nat)
    requires p >= 1 && q >= 1 && x < p * q
    ensures x / q < p
  {
    assert x == x / q * q + x % q;
    if x / q >= p { MulLe(p, x / q, q); }
  }

  lemma LowMultiple(n: nat, p: nat, q: nat, x: nat)
    requires p >= 1 && q >= 1 && p * q == BASE && n == x * p
    ensures Low(n) as nat % p == 0
  {
    var c := n / BASE;
    assert n == c * BASE + n % BASE;
    assert c * BASE == (c * q) * p;
    assert n % BASE == (x - c * q) * p;
    assert x - c * q >= 0 by { if x - c * q < 0 { MulLe(x - c * q, -1, p); } }
    DivModUnique(n % BASE, p, x - c * q, 0);
  }

  lemma RoomAbove(v: nat, p: nat, q: nat, y: nat)
    requires p >= 1 && q >= 1 && p * q == BASE && v < BASE && v % p == 0 && y < p
    ensures v + y < BASE
  {
    assert v == v / p * p;
    QuotientBelow(v, q, p);
    MulLe(v / p + 1, q, p);
    assert (v / p + 1) * p == v / p * p + p;
  }

  lemma {:induction false} OrSymmetric(x: nat, y: nat)
    ensures Or(x, y) == Or(y, x)
    decreases x + y
  {
    if x != 0 && y != 0 { OrSymmetric(x / 2, y / 2); }
  }

  // ----- shift left

  ghost function TopOf(a: seq<limb>, s: nat, i: nat): nat
    requires i <= |a|
  {
    if i == 0 then 0 else Hi(a[i - 1], s)
  }

  /** After the first i limbs the next limb holds what left the previous one at the top. */
  ghost predicate LeftShape(a: seq<limb>, k: nat, s: nat, cur: seq<limb>, i: nat) {
    && |cur| == |a| && i <= |a|
    && (i + k < |a| ==> cur[i + k] as nat == TopOf(a, s, i))
    && (forall m | i + k < m < |a| :: cur[m] == 0)
  }

  /** ... and the value agrees modulo the width. */
  ghost predicate LeftValue(a: seq<limb>, k: nat, s: nat, cur: seq<limb>, i: nat)
    requires i <= |a|
  {
    Value(cur) % Place(|a|) == Times(Value(a[..i]), Times(Pow2(s), Place(k))) % Place(|a|)
  }

  ghost function LeftNext(a: seq<limb>, k: nat, s: nat, cur: seq<limb>, i: nat): (r: seq<limb>)
    requires |cur| == |a| && i < |a|
    ensures |r| == |a|
  {
    var c1 := if i + k + 1 < |a| then cur[i + k + 1 := Low(Hi(a[i], s))] else cur;
    if i + k < |a| then c1[i + k := Low(cur[i + k] as nat + Lo(a[i], s) as nat)] else c1
  }

  /** The two or-assignments of a round compute LeftNext. */
  lemma LeftReady(a: seq<limb>, k: nat, s: nat, cur: seq<limb>, i: nat)
    requires LeftShape(a, k, s, cur, i) && i < |a| && s < 32
    ensures i + k < |a| ==> Or(cur[i + k] as nat, Lo(a[i], s) as nat) == cur[i + k] as nat + Lo(a[i], s) as nat < BASE
    ensures i + k + 1 < |a| ==> Or(cur[i + k + 1] as nat, Shr(a[i], 32 - s)) == Hi(a[i], s) < BASE
    ensures s == 0 ==> Hi(a[i], s) == 0
    ensures LeftShape(a, k, s, LeftNext(a, k, s, cur, i), i + 1)
  {
    assert Pow2(0) == 1;
    hide Pow2, Lo, Hi, Shr, Low;
    if i > 0 { LoHi(a[i - 1], s); }
    LoHi(a[i], s);
    Pow2Of32();
    Pow2Mono(s, 32);
    LowSmall(Hi(a[i], s));
    if i + k < |a| {
      OrRoom(a[i], s, cur[i + k] as nat);
      LowSmall(cur[i + k] as nat + Lo(a[i], s) as nat);
    }
  }

  lemma LeftStep(a: seq<limb>, k: nat, s: nat, cur: seq<limb>, i: nat)
    requires LeftShape(a, k, s, cur, i) && i < |a| && s < 32 && LeftValue(a, k, s, cur, i)
    ensures LeftValue(a, k, s, LeftNext(a, k, s, cur, i), i + 1)
  {
    var w, x, next := |a|, a[i], LeftNext(a, k, s, cur, i);
    LeftReady(a, k, s, cur, i);
    LoHi(x, s);
    ValueStep(a, i);
    PlaceAdd(i, k);
    var v, lo, hi, p := Value(cur), Lo(x, s) as nat, Hi(x, s), Place(i + k);
    var drop := if i + k + 1 < w then 0 else if i + k + 1 == w then hi
      else Times(Times(x as nat, Pow2(s)), Place(i + k - w));
    assert Value(next) + Times(drop, Place(w)) == v + Times(Times(x as nat, Pow2(s)), p) by {
      LeftAdds(a, k, s, cur, i, drop);
    }
    hide Lo, Hi, LeftNext, LeftShape, Value, Place, Pow2;
    LeftArith(Value(next), v, drop, Place(w), x as nat, Pow2(s), Place(i), Place(k), p, Value(a[..i]));
  }

  /** What a round adds to the value, up to what leaves the width. */
  lemma LeftAdds(a: seq<limb>, k: nat, s: nat, cur: seq<limb>, i: nat, drop: nat)
    requires LeftShape(a, k, s, cur, i) && i < |a| && s < 32
    requires drop == if i + k + 1 < |a| then 0 else if i + k + 1 == |a| then Hi(a[i], s)
                     else Times(Times(a[i] as nat, Pow2(s)), Place(i + k - |a|))
    ensures Value(LeftNext(a, k, s, cur, i)) + Times(drop, Place(|a|))
            == Value(cur) + Times(Times(a[i] as nat, Pow2(s)), Place(i + k))
  {
    hide Value, Place, Pow2, Lo, Hi, Shr, Low, Or, Times;
    var w, x := |a|, a[i];
    LeftReady(a, k, s, cur, i);
    LoHi(x, s);
    ZeroTimes();
    if i + k < w {
      LowSmall(cur[i + k] as nat + Lo(x, s) as nat);
      LowSmall(Hi(x, s)) by { if i + k + 1 == w { HiBound(x, s); } }
    }
    var lo, hi, n, p := Lo(x, s) as nat, Hi(x, s), Times(x as nat, Pow2(s)), Place(i + k);
    PlaceSucc(i + k);
    SplitTimes(lo, hi, p);
    if i + k + 1 < w {
      ValueUpdate(cur, i + k + 1, Low(hi));
      var c1 := cur[i + k + 1 := Low(hi)];
      ValueUpdate(c1, i + k, Low(cur[i + k] as nat + lo));
      AddTimes(cur[i + k] as nat, lo, p);
    } else if i + k + 1 == w {
      ValueUpdate(cur, i + k, Low(cur[i + k] as nat + lo));
      AddTimes(cur[i + k] as nat, lo, p);
    } else {
      PlaceAdd(i + k - w, w);
      TimesAssoc(n, Place(i + k - w), Place(w));
    }
  }

  lemma HiBound(x: limb, s: nat)
    requires s < 32
    ensures Hi(x, s) < BASE
  {
    LoHi(x, s);
    Pow2Of32();
    Pow2Mono(s, 32);
  }

  lemma ZeroTimes()
    ensures forall p: nat :: Times(0, p) == 0
  {
  }

  lemma SplitTimes(lo: nat, hi: nat, p: nat)
    ensures Times(lo + Times(hi, BASE), p) == Times(lo, p) + Times(hi, p * BASE)
  {
    assert (hi * BASE) * p == hi * (p * BASE);
  }

  lemma AddTimes(a: nat, b: nat, p: nat)
    ensures Times(a + b, p) == Times(a, p) + Times(b, p)
  {
  }

  lemma TimesAssoc(a: nat, b: nat, c: nat)
    ensures Times(Times(a, b), c) == Times(a, b * c)
  {
  }

  lemma LeftArith(v': nat, v: nat, drop: nat, m: nat, x: nat, p2: nat, pi: nat, pk: nat, p: nat, va: nat)
    requires m >= 1 && p == pi * pk
    requires v' + Times(drop, m) == v + Times(Times(x, p2), p)
    requires v % m == Times(va, Times(p2, pk)) % m
    ensures v' % m == Times(va + Times(x, pi), Times(p2, pk)) % m
  {
    var t := x * p2 * p;
    ModShift(v', drop, m);
    ModCongruent(v, va * (p2 * pk), t, m);
    assert (va + x * pi) * (p2 * pk) == va * (p2 * pk) + t by { assert (x * pi) * (p2 * pk) == x * p2 * (pi * pk); }
  }

  lemma LeftStart(a: seq<limb>, k: nat, s: nat, cur: seq<limb>)
    requires |cur| == |a| && forall m | 0 <= m < |a| :: cur[m] == 0
    ensures LeftShape(a, k, s, cur, 0) && LeftValue(a, k, s, cur, 0)
  {
    AllZero(cur);
    assert a[..0] == [] && Value([]) == 0;
    assert Times(0, Times(Pow2(s), Place(k))) == 0;
  }

  lemma LeftDone(a: seq<limb>, shift: nat, cur: seq<limb>)
    requires |cur| == |a| && LeftValue(a, shift / 32, shift % 32, cur, |a|)
    ensures Value(cur) == Times(Value(a), Pow2(shift)) % Place(|a|)
  {
    hide Value, Place, Pow2, Times;
    assert a[..|a|] == a;
    ValueBound(cur);
    ModUnique(Value(cur), 0, Place(|a|), Value(cur));
    ShiftFactor(shift);
  }

  lemma ShiftFactor(shift: nat)
    ensures Times(Pow2(shift % 32), Place(shift / 32)) == Pow2(shift)
  {
    PlaceIsPow2(shift / 32);
    Pow2Add(shift % 32, 32 * (shift / 32));
    assert shift % 32 + 32 * (shift / 32) == shift;
  }

  method Clear(pn: array<limb>)
    modifies pn
    ensures forall k | 0 <= k < pn.Length :: pn[k] == 0
  {
    for i := 0 to pn.Length
      invariant forall k | 0 <= k < i :: pn[k] == 0
    {
      pn[i] := 0;
    }
  }

  /** <<= for any shift, including shifts beyond the width. */
  method ShiftLeft(pn: array<limb>, shift: nat)
    modifies pn
    ensures Value(pn[..]) == Times(old(Value(pn[..])), Pow2(shift)) % Place(pn.Length)
  {
    var a := pn[..];
    Clear(pn);
    var k, s := shift / 32, shift % 32;
    LeftStart(a, k, s, pn[..]);
    hide LeftValue, Or, Lo, Hi, Shr, Low;
    for i := 0 to pn.Length
      invariant LeftShape(a, k, s, pn[..], i) && LeftValue(a, k, s, pn[..], i)
    {
      ghost var cur := pn[..];
      LeftReady(a, k, s, cur, i);
      LeftStep(a, k, s, cur, i);
      if i + k + 1 < pn.Length && s != 0 {
        pn[i + k + 1] := Or(pn[i + k + 1] as nat, Shr(a[i], 32 - s));
      }
      if i + k < pn.Length {
        pn[i + k] := Or(pn[i + k] as nat, Lo(a[i], s) as nat);
      }
      SameRound(a, k, s, cur, pn[..], i);
    }
    LeftDone(a, shift, pn[..]);
  }

  lemma SameRound(a: seq<limb>, k: nat, s: nat, cur: seq<limb>, after: seq<limb>, i: nat)
    requires LeftShape(a, k, s, cur, i) && i < |a| && s < 32 && |after| == |a|
    requires forall m | 0 <= m < |a| && m != i + k && m != i + k + 1 :: after[m] == cur[m]
    requires i + k + 1 < |a| && s == 0 ==> after[i + k + 1] == cur[i + k + 1]
    requires i + k + 1 < |a| && s != 0 ==> after[i + k + 1] as nat == Or(cur[i + k + 1] as nat, Shr(a[i], 32 - s))
    requires i + k < |a| ==> after[i + k] as nat == Or(cur[i + k] as nat, Lo(a[i], s) as nat)
    ensures after == LeftNext(a, k, s, cur, i)
  {
    hide Or, Lo, Hi, Shr, Low;
    LeftReady(a, k, s, cur, i);
    if i + k < |a| { LowSmall(cur[i + k] as nat + Lo(a[i], s) as nat); }
    if i + k + 1 < |a| { LowSmall(Hi(a[i], s)); }
  }

  // ----- shift right

  /** The bits of a limb that leave at the bottom. */
  function Bottom(x: limb, s: nat): nat { x as nat % Pow2(s) }

  /** x >> s, and x << (32 - s) for the limb below, are the two parts of x. */
  lemma RightParts(x: limb, s: nat)
    requires s < 32
    ensures Shr(x, s) < Pow2(32 - s) && Shr(x, s) < BASE
    ensures Times(Shr(x, s), Pow2(s)) + Bottom(x, s) == x as nat
    ensures s > 0 ==> Lo(x, 32 - s) as nat == Times(Bottom(x, s), Pow2(32 - s))
    ensures s == 0 ==> Bottom(x, s) == 0
    ensures Bottom(x, s) < Pow2(s) && Pow2(32 - s) * Pow2(s) == BASE
  {
    assert Pow2(0) == 1;
    Pow2Of32();
    Pow2Add(32 - s, s);
    Pow2Mono(32 - s, 32);
    hide Pow2;
    RightArith(x as nat, Pow2(s), Pow2(32 - s));
  }

  lemma RightArith(x: nat, p: nat, q: nat)
    requires p >= 1 && q >= 1 && q * p == BASE && x < BASE
    ensures Quotient(x, p) < q && Times(Quotient(x, p), p) + x % p == x
    ensures Low(Times(x, q)) as nat == Times(x % p, q)
  {
    var d, r := x / p, x % p;
    QuotientBelow(x, q, p);
    assert x == d * p + r;
    assert x * q == d * BASE + r * q by { assert (d * p + r) * q == d * (q * p) + r * q; }
    assert r * q < BASE by { MulLe(r + 1, p, q); assert (r + 1) * q == r * q + q; }
    DivModUnique(x * q, BASE, d, r * q);
  }

  /** After the limbs up to i: the top limb so far lacks the bits of the next one. */
  ghost predicate RightShape(a: seq<limb>, k: nat, s: nat, cur: seq<limb>, i: nat) {
    && |cur| == |a| && i <= |a|
    && (forall m | 0 <= m < |a| && m >= i - k :: cur[m] == 0)
    && (i > k ==> cur[i - k - 1] as nat == Shr(a[i - 1], s))
  }

  ghost function Rest(a: seq<limb>, k: nat, s: nat, i: nat): nat
    requires i <= |a|
  {
    if i > k then Bottom(a[k], s) else 0
  }

  ghost predicate RightValue(a: seq<limb>, k: nat, s: nat, cur: seq<limb>, i: nat)
    requires i <= |a|
  {
    Times(Value(cur), Pow2(s)) + Rest(a, k, s, i) == if i >= k then Value(a[k..i]) else 0
  }

  ghost function RightNext(a: seq<limb>, k: nat, s: nat, cur: seq<limb>, i: nat): (r: seq<limb>)
    requires |cur| == |a| && i < |a| && s < 32
    ensures |r| == |a|
  {
    var c1 := if i > k then cur[i - k - 1 := Low(cur[i - k - 1] as nat + Times(Bottom(a[i], s), Pow2(32 - s)))]
      else cur;
    if i >= k then c1[i - k := Low(Shr(a[i], s))] else c1
  }

  /** The two or-assignments of a round compute RightNext. */
  lemma RightReady(a: seq<limb>, k: nat, s: nat, cur: seq<limb>, i: nat)
    requires RightShape(a, k, s, cur, i) && i < |a| && s < 32
    ensures i > k && s > 0 ==>
              Or(cur[i - k - 1] as nat, Lo(a[i], 32 - s) as nat)
                == cur[i - k - 1] as nat + Times(Bottom(a[i], s), Pow2(32 - s)) < BASE
    ensures i > k && s == 0 ==> Times(Bottom(a[i], s), Pow2(32 - s)) == 0
    ensures i >= k ==> Or(cur[i - k] as nat, Shr(a[i], s)) == Shr(a[i], s) < BASE
    ensures RightShape(a, k, s, RightNext(a, k, s, cur, i), i + 1)
  {
    hide Pow2, Lo, Shr, Low, Bottom;
    RightParts(a[i], s);
    LowSmall(Shr(a[i], s));
    if i > k {
      RightParts(a[i - 1], s);
      if s > 0 { OrRoom(a[i], 32 - s, cur[i - k - 1] as nat); }
    }
  }

  lemma RightStep(a: seq<limb>, k: nat, s: nat, cur: seq<limb>, i: nat)
    requires RightShape(a, k, s, cur, i) && i < |a| && s < 32 && RightValue(a, k, s, cur, i)
    ensures RightValue(a, k, s, RightNext(a, k, s, cur, i), i + 1)
  {
    hide Pow2, Lo, Shr, Low, Bottom, Or, Value, Place, Times;
    RightReady(a, k, s, cur, i);
    RightParts(a[i], s);
    LowSmall(Shr(a[i], s));
    if i > k {
      var extra := Times(Bottom(a[i], s), Pow2(32 - s));
      if s > 0 { LowSmall(cur[i - k - 1] as nat + extra); } else { LowSmall(cur[i - k - 1] as nat); }
      ValueUpdate(cur, i - k - 1, Low(cur[i - k - 1] as nat + extra));
      var c1 := cur[i - k - 1 := Low(cur[i - k - 1] as nat + extra)];
      ValueUpdate(c1, i - k, Low(Shr(a[i], s)));
      assert a[k..i + 1] == a[k..i] + [a[i]];
      ValueSnoc(a[k..i], a[i]);
      PlaceSucc(i - k - 1);
      ZeroTimes();
      RightStepArith(Value(cur), Value(RightNext(a, k, s, cur, i)), cur[i - k - 1] as nat, Bottom(a[i], s),
        Shr(a[i], s),
                     Pow2(s), Pow2(32 - s), Place(i - k - 1), a[i] as nat);
    } else if i == k {
      ValueUpdate(cur, 0, Low(Shr(a[i], s)));
      AllZero(cur);
      ZeroTimes();
      RightFirst(a, s, i, Shr(a[i], s));
    } else {
      if i + 1 == k { assert a[k..i + 1] == []; }
      RightFirst(a, s, i, 0);
    }
  }

  lemma RightFirst(a: seq<limb>, s: nat, i: nat, q: nat)
    requires i < |a|
    ensures Value(a[i..i + 1]) == a[i] as nat && a[i..i] == [] && Value([]) == 0 && Times(q, Place(0)) == q
    ensures Times(0, Pow2(s)) == 0
  {
    assert a[i..i + 1] == [] + [a[i]];
    ValueSnoc([], a[i]);
  }

  lemma RightStepArith(v: nat, v': nat, c: nat, r: nat, q: nat, p2: nat, q2: nat, p: nat, x: nat)
    requires q2 * p2 == BASE && Times(q, p2) + r == x
    requires v' == v + Times(c + Times(r, q2), p) - Times(c, p) + Times(q, p * BASE)
    ensures Times(v', p2) == Times(v, p2) + Times(x, p * BASE)
  {
    assert (c + r * q2) * p == c * p + (r * q2) * p;
    assert v' == v + (r * q2) * p + q * (p * BASE);
    assert ((r * q2) * p) * p2 == r * (p * BASE) by { assert ((r * q2) * p) * p2 == r * (p * (q2 * p2)); }
    assert (q * (p * BASE)) * p2 == (q * p2) * (p * BASE);
    assert x * (p * BASE) == (q * p2) * (p * BASE) + r * (p * BASE);
    assert v' * p2 == v * p2 + ((r * q2) * p) * p2 + (q * (p * BASE)) * p2;
  }

  lemma RightStart(a: seq<limb>, k: nat, s: nat, cur: seq<limb>)
    requires |cur| == |a| && forall m | 0 <= m < |a| :: cur[m] == 0
    ensures RightShape(a, k, s, cur, 0) && RightValue(a, k, s, cur, 0)
  {
    AllZero(cur);
    assert Value([]) == 0;
    if k == 0 { assert a[k..0] == []; }
  }

  lemma RightDone(a: seq<limb>, shift: nat, cur: seq<limb>)
    requires |cur| == |a| && RightValue(a, shift / 32, shift % 32, cur, |a|)
    ensures Value(cur) == Quotient(Value(a), Pow2(shift))
  {
    hide Value, Place, Pow2, Times, RightValue;
    ShiftFactor(shift);
    if shift / 32 < |a| { RightSome(a, shift / 32, shift % 32, cur); } else { RightNone(a, shift, cur); }
  }

  lemma RightSome(a: seq<limb>, k: nat, s: nat, cur: seq<limb>)
    requires |cur| == |a| && s < 32 && RightValue(a, k, s, cur, |a|) && k < |a|
    ensures Times(Pow2(s), Place(k)) >= 1 && Value(cur) == Quotient(Value(a), Times(Pow2(s), Place(k)))
  {
    hide Value, Place, Pow2, Bottom, Shr, Times, Quotient;
    RightParts(a[k], s);
    assert a == a[..k] + a[k..|a|];
    ValueConcat(a[..k], a[k..|a|]);
    ValueBound(a[..k]);
    RightQuotient(Value(a), Value(a[..k]), Value(a[k..|a|]), Place(k), Value(cur), Pow2(s), Bottom(a[k], s));
  }

  lemma RightNone(a: seq<limb>, shift: nat, cur: seq<limb>)
    requires |cur| == |a| && RightValue(a, shift / 32, shift % 32, cur, |a|) && shift / 32 >= |a|
    ensures Value(cur) == Quotient(Value(a), Pow2(shift))
  {
    hide Value, Place, Pow2, Bottom, Shr, Times, Quotient;
    var k, s := shift / 32, shift % 32;
    ShiftFactor(shift);
    ValueBound(a);
    PlaceAdd(|a|, k - |a|);
    if k == |a| { ZeroValue(a[k..|a|]); }
    NothingLeft(Value(a), Place(|a|), Place(k - |a|), Pow2(s), Pow2(shift), Value(cur));
  }

  lemma NothingLeft(va: nat, m: nat, p: nat, p2: nat, q: nat, v: nat)
    requires va < m && p >= 1 && p2 >= 1 && q == Times(p2, m * p) && Times(v, p2) == 0
    ensures v == 0 && q >= 1 && Quotient(va, q) == 0
  {
    assert m * p >= m by { MulLe(1, p, m); }
    assert p2 * (m * p) >= m * p by { MulLe(1, p2, m * p); }
    if v > 0 { MulLe(1, v, p2); }
    DivModUnique(va, q, 0, va);
  }

  lemma RightQuotient(va: nat, lo: nat, hi: nat, pk: nat, v: nat, p2: nat, r: nat)
    requires pk >= 1 && p2 >= 1 && va == lo + pk * hi && lo < pk && Times(v, p2) + r == hi && r < p2
    ensures Times(p2, pk) >= 1 && v == Quotient(va, Times(p2, pk))
  {
    DivModUnique(va, pk, hi, lo);
    DivModUnique(hi, p2, v, r);
    DivDiv(va, pk, p2);
    assert pk * p2 == p2 * pk;
  }

  /** >>= for any shift: exact division by the power of two, rounded down. */
  method ShiftRight(pn: array<limb>, shift: nat)
    modifies pn
    ensures Value(pn[..]) == Quotient(old(Value(pn[..])), Pow2(shift))
  {
    hide RightValue, RightShape, Or, Lo, Shr, Low, Bottom, Pow2, Quotient;
    var a := pn[..];
    Clear(pn);
    var k, s := shift / 32, shift % 32;
    RightStart(a, k, s, pn[..]);
    for i := 0 to pn.Length
      invariant RightShape(a, k, s, pn[..], i) && RightValue(a, k, s, pn[..], i)
    {
      ghost var cur := pn[..];
      RightReady(a, k, s, cur, i);
      RightStep(a, k, s, cur, i);
      if i - k - 1 >= 0 && s != 0 {
        pn[i - k - 1] := Or(pn[i - k - 1] as nat, Lo(a[i], 32 - s) as nat);
      }
      if i - k >= 0 {
        pn[i - k] := Or(pn[i - k] as nat, Shr(a[i], s));
      }
      SameRightRound(a, k, s, cur, pn[..], i);
    }
    RightDone(a, shift, pn[..]);
  }

  lemma SameRightRound(a: seq<limb>, k: nat, s: nat, cur: seq<limb>, after: seq<limb>, i: nat)
    requires RightShape(a, k, s, cur, i) && i < |a| && s < 32 && |after| == |a|
    requires forall m | 0 <= m < |a| && m != i - k && m != i - k - 1 :: after[m] == cur[m]
    requires i > k && s == 0 ==> after[i - k - 1] == cur[i - k - 1]
    requires i > k && s != 0 ==> after[i - k - 1] as nat == Or(cur[i - k - 1] as nat, Lo(a[i], 32 - s) as nat)
    requires i >= k ==> after[i - k] as nat == Or(cur[i - k] as nat, Shr(a[i], s))
    ensures after == RightNext(a, k, s, cur, i)
  {
    hide Or, Lo, Shr, Low, Bottom, Pow2, Times;
    RightReady(a, k, s, cur, i);
    if i > k {
      if s > 0 {
        LowSmall(cur[i - k - 1] as nat + Times(Bottom(a[i], s), Pow2(32 - s)));
      } else {
        LowSmall(cur[i - k - 1] as nat);
      }
    }
    if i >= k { LowSmall(Shr(a[i], s)); }
  }

  // ----- comparison

  /** CompareTo: the sign of the difference. */
  method CompareTo(a: seq<limb>, b: seq<limb>) returns (r: int)
    requires |a| == |b|
    ensures r == if Value(a) < Value(b) then -1 else if Value(a) > Value(b) then 1 else 0
  {
    hide Value;
    var i := |a|;
    assert a[..i] == a && b[..i] == b;
    while i > 0
      invariant 0 <= i <= |a|
      invariant Value(a) - Value(a[..i]) == Value(b) - Value(b[..i])
    {
      i := i - 1;
      if a[i] < b[i] { HigherLimb(a, b, i); return -1; }
      if a[i] > b[i] { HigherLimb(b, a, i); return 1; }
      ValueStep(a, i);
      ValueStep(b, i);
    }
    assert a[..0] == [] && b[..0] == [];
    r := 0;
  }

  lemma HigherLimb(a: seq<limb>, b: seq<limb>, i: nat)
    requires |a| == |b| && i < |a| && a[i] < b[i]
    requires Value(a) - Value(a[..i + 1]) == Value(b) - Value(b[..i + 1])
    ensures Value(a) < Value(b)
  {
    ValueStep(a, i);
    ValueStep(b, i);
    ValueBound(a[..i]);
    var p := Place(i);
    hide Value, Place;
    MulLe(a[i] as nat + 1, b[i] as nat, p);
    assert (a[i] as nat + 1) * p == a[i] as nat * p + p;
  }

  // ----- bit length

  /** The position of the highest bit plus one, or zero. */
  method Bits(a: seq<limb>) returns (n: nat)
    ensures n == 0 <==> Value(a) == 0
    ensures n > 0 ==> Pow2(n - 1) <= Value(a) < Pow2(n)
    ensures n <= 32 * |a|
  {
    hide Value, Pow2;
    var pos := |a|;
    assert a[..pos] == a;
    while pos > 0
      invariant 0 <= pos <= |a| && Value(a) == Value(a[..pos])
    {
      pos := pos - 1;
      ValueStep(a, pos);
      if a[pos] != 0 {
        var b := TopBit(a[pos]);
        BitsOf(a[..pos], a[pos], b);
        assert a[..pos + 1] == a[..pos] + [a[pos]];
        return 32 * pos + b + 1;
      }
      assert Times(0, Place(pos)) == 0;
    }
    ZeroValue(a[..0]);
    n := 0;
  }

  lemma ZeroValue(s: seq<limb>)
    requires s == []
    ensures Value(s) == 0
  {
  }

  method TopBit(x: limb) returns (b: nat)
    requires x != 0
    ensures b < 32 && Pow2(b) <= x as nat < Pow2(b + 1)
  {
    Pow2Of32();
    b := 31;
    while b > 0
      invariant b < 32 && x as nat < Pow2(b + 1)
    {
      if Shr(x, b) % 2 != 0 {
        BitSet(x as nat, Pow2(b));
        return;
      }
      BitClear(x as nat, Pow2(b));
      b := b - 1;
    }
  }

  lemma BitSet(x: nat, p: nat)
    requires p >= 1 && Quotient(x, p) % 2 != 0
    ensures x >= p
  {
    if x < p { DivModUnique(x, p, 0, x); }
  }

  lemma BitClear(x: nat, p: nat)
    requires p >= 1 && x < 2 * p && Quotient(x, p) % 2 == 0
    ensures x < p
  {
    if x >= p { DivModUnique(x, p, 1, x - p); }
  }

  lemma BitsOf(low: seq<limb>, x: limb, b: nat)
    requires x != 0 && Pow2(b) <= x as nat < Pow2(b + 1)
    ensures Pow2(32 * |low| + b) <= Value(low + [x]) < Pow2(32 * |low| + b + 1)
  {
    hide Value, Place, Pow2, Times;
    ValueSnoc(low, x);
    ValueBound(low);
    PlaceIsPow2(|low|);
    Pow2Add(32 * |low|, b);
    Pow2Add(32 * |low|, b + 1);
    BitsArith(Value(low + [x]), Value(low), x as nat, Place(|low|), Pow2(b), Pow2(b + 1));
  }

  lemma BitsArith(v: nat, low: nat, x: nat, p: nat, from: nat, to: nat)
    requires v == low + Times(x, p) && low < p && from <= x < to
    ensures p * from <= v < p * to
  {
    MulLe(from, x, p);
    MulLe(x + 1, to, p);
    assert (x + 1) * p == x * p + p;
    assert from * p == p * from && to * p == p * to;
  }
}
